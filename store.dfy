/** Small facts about sequences shared by the store and the client. */
module Seqs {

  /** No element occurs twice. */
  predicate NoDup<T(==)>(s: seq<T>)
  {
    forall i, j :: 0 <= i < j < |s| ==> s[i] != s[j]
  }

  /** Two duplicate-free sequences with no element in common concatenate to one. */
  lemma NoDupConcat<T>(a: seq<T>, b: seq<T>)
    requires NoDup(a) && NoDup(b)
    requires forall x :: x in a ==> x !in b
    ensures NoDup(a + b)
  {
    forall i, j | 0 <= i < j < |a + b|
      ensures (a + b)[i] != (a + b)[j]
    {
      if j < |a| {
        assert (a + b)[i] == a[i] && (a + b)[j] == a[j];
      } else if i >= |a| {
        assert (a + b)[i] == b[i - |a|] && (a + b)[j] == b[j - |a|];
      } else {
        assert (a + b)[i] == a[i] && (a + b)[j] == b[j - |a|];
        assert a[i] in a && b[j - |a|] in b;
      }
    }
  }

  /** Appending an element not yet present keeps a sequence duplicate-free. */
  lemma NoDupSnoc<T>(p: seq<T>, x: T)
    ensures NoDup(p) && x !in p ==> NoDup(p + [x])
  {
    if NoDup(p) && x !in p {
      NoDupConcat(p, [x]);
    }
  }

  /** The set of elements of a sequence. */
  function Elems<T>(s: seq<T>): set<T>
  {
    set x | x in s
  }

  lemma ElemsConcat<T>(a: seq<T>, b: seq<T>)
    ensures Elems(a + b) == Elems(a) + Elems(b)
  {
    assert forall y :: y in a + b <==> y in a || y in b;
  }

  lemma ElemsSnoc<T>(s: seq<T>, x: T)
    ensures Elems(s + [x]) == Elems(s) + {x}
  {
    assert forall y :: y in s + [x] <==> y in s || y == x;
  }
}

/**
 * The two tables the edge functions share: `seats` and `bookings`.
 * Each table is a map from row id to row; every store call the handlers make
 * is a method of `Database` that states exactly which rows it writes.
 */
module Store {
  import opened Seqs

  type SeatId = string
  type ShowId = string
  type BookingId = string

  datatype SeatStatus = AVAILABLE | PENDING | BOOKED
  datatype BookingStatus = BookingPending | Confirmed | Failed

  /** A row of the `seats` table (its id is the map key). */
  datatype Seat = Seat(showId: ShowId, seatNumber: int, status: SeatStatus)

  /** A row of the `bookings` table (its id is the map key); `expiresAt` in milliseconds. */
  datatype Booking = Booking(showId: ShowId, userEmail: string, seatIds: seq<SeatId>,
                             status: BookingStatus, expiresAt: int)

  /** Both tables at once, as a sweep leaves them. */
  datatype Tables = Tables(seats: map<SeatId, Seat>, bookings: map<BookingId, Booking>)

  /** How long a hold lasts: two minutes, in milliseconds. */
  const HoldDuration: int := 2 * 60 * 1000

  /** The text the store holds in a booking's `status` column. */
  function BookingStatusName(s: BookingStatus): (r: string)
    ensures r == "PENDING" <==> s == BookingPending
    ensures r == "CONFIRMED" <==> s == Confirmed
    ensures r == "FAILED" <==> s == Failed
  {
    match s
    case BookingPending => "PENDING"
    case Confirmed => "CONFIRMED"
    case Failed => "FAILED"
  }

  /** The text the store holds in a seat's `status` column. */
  function SeatStatusName(s: SeatStatus): (r: string)
    ensures r == "AVAILABLE" <==> s == AVAILABLE
    ensures r == "PENDING" <==> s == PENDING
    ensures r == "BOOKED" <==> s == BOOKED
  {
    match s
    case AVAILABLE => "AVAILABLE"
    case PENDING => "PENDING"
    case BOOKED => "BOOKED"
  }

  /** Does seat `x` exist and pass the optional `show_id` and `status` filters of a query? */
  predicate Matches(seats: map<SeatId, Seat>, x: SeatId, show: Option<ShowId>, status: Option<SeatStatus>)
  {
    x in seats
    && (show.None? || seats[x].showId == show.value)
    && (status.None? || seats[x].status == status.value)
  }

  datatype Option<T> = None | Some(value: T)

  /**
   * The rows a query `.in('id', ids)` (plus the optional filters) returns, as ids:
   * each matching row once, in the order its id first occurs in `ids`.
   */
  function Rows(seats: map<SeatId, Seat>, ids: seq<SeatId>, show: Option<ShowId>, status: Option<SeatStatus>): seq<SeatId>
    decreases |ids|
  {
    if ids == [] then []
    else
      var r := Rows(seats, ids[..|ids| - 1], show, status);
      var x := ids[|ids| - 1];
      if Matches(seats, x, show, status) && x !in r then r + [x] else r
  }

  /** Every id of `ids` names a seat that passes the filters. */
  predicate AllMatch(seats: map<SeatId, Seat>, ids: seq<SeatId>, show: Option<ShowId>, status: Option<SeatStatus>)
  {
    forall x :: x in ids ==> Matches(seats, x, show, status)
  }

  /** A query returns exactly the matching ids, never more rows than ids asked for. */
  lemma {:induction false} RowsMembers(seats: map<SeatId, Seat>, ids: seq<SeatId>, show: Option<ShowId>, status: Option<SeatStatus>)
    ensures forall x :: x in Rows(seats, ids, show, status) <==> x in ids && Matches(seats, x, show, status)
    ensures |Rows(seats, ids, show, status)| <= |ids|
    decreases |ids|
  {
    if ids != [] {
      var p := ids[..|ids| - 1];
      assert ids == p + [ids[|ids| - 1]];
      RowsMembers(seats, p, show, status);
    }
  }

  /** A query returns each row at most once, even when `ids` repeats an id. */
  lemma {:induction false} RowsNoDup(seats: map<SeatId, Seat>, ids: seq<SeatId>, show: Option<ShowId>, status: Option<SeatStatus>)
    ensures NoDup(Rows(seats, ids, show, status))
    decreases |ids|
  {
    if ids != [] {
      var p := ids[..|ids| - 1];
      RowsNoDup(seats, p, show, status);
    }
  }

  /** Distinct ids that all match come back as the request itself. */
  lemma {:induction false} RowsFull(seats: map<SeatId, Seat>, ids: seq<SeatId>, show: Option<ShowId>, status: Option<SeatStatus>)
    requires NoDup(ids) && AllMatch(seats, ids, show, status)
    ensures Rows(seats, ids, show, status) == ids
    decreases |ids|
  {
    if ids != [] {
      var p := ids[..|ids| - 1];
      var x := ids[|ids| - 1];
      assert ids == p + [x];
      assert NoDup(p) by {
        forall i, j | 0 <= i < j < |p| ensures p[i] != p[j] { assert ids[i] == p[i] && ids[j] == p[j]; }
      }
      assert AllMatch(seats, p, show, status) by {
        forall y | y in p ensures Matches(seats, y, show, status) { assert y in ids; }
      }
      RowsFull(seats, p, show, status);
      assert x !in p by {
        forall i | 0 <= i < |p| ensures p[i] != x { assert ids[i] == p[i]; }
      }
    }
  }

  /** A repeated id or an id that does not match makes the query come back short. */
  lemma {:induction false} RowsShort(seats: map<SeatId, Seat>, ids: seq<SeatId>, show: Option<ShowId>, status: Option<SeatStatus>)
    requires !(NoDup(ids) && AllMatch(seats, ids, show, status))
    ensures |Rows(seats, ids, show, status)| < |ids|
    decreases |ids|
  {
    var p := ids[..|ids| - 1];
    var x := ids[|ids| - 1];
    assert ids == p + [x];
    RowsMembers(seats, p, show, status);
    if NoDup(p) && AllMatch(seats, p, show, status) {
      RowsFull(seats, p, show, status);
      if Matches(seats, x, show, status) {
        // every id matches, so x repeats an earlier one
        assert AllMatch(seats, ids, show, status);
        NoDupSnoc(p, x);
        assert x in p;
      }
    } else {
      RowsShort(seats, p, show, status);
    }
  }

  /**
   * What a query returns: exactly the matching ids, each once, never more rows than
   * ids asked for, and as many rows as ids exactly when the ids are distinct and all
   * match, in which case the rows are the request itself.
   */
  lemma RowsFacts(seats: map<SeatId, Seat>, ids: seq<SeatId>, show: Option<ShowId>, status: Option<SeatStatus>)
    ensures forall x :: x in Rows(seats, ids, show, status) <==> x in ids && Matches(seats, x, show, status)
    ensures NoDup(Rows(seats, ids, show, status))
    ensures |Rows(seats, ids, show, status)| == |ids| <==> NoDup(ids) && AllMatch(seats, ids, show, status)
    ensures |Rows(seats, ids, show, status)| == |ids| ==> Rows(seats, ids, show, status) == ids
  {
    RowsMembers(seats, ids, show, status);
    RowsNoDup(seats, ids, show, status);
    if NoDup(ids) && AllMatch(seats, ids, show, status) {
      RowsFull(seats, ids, show, status);
    } else {
      RowsShort(seats, ids, show, status);
    }
  }

  /** `seats` with the status of every seat whose id is in `ids` set to `st`; unknown ids are ignored. */
  function SetStatus(seats: map<SeatId, Seat>, ids: set<SeatId>, st: SeatStatus): (r: map<SeatId, Seat>)
    ensures r.Keys == seats.Keys
  {
    map s | s in seats :: if s in ids then seats[s].(status := st) else seats[s]
  }

  /**
   * Reverting the rows a guarded AVAILABLE -> PENDING update caught gives back
   * exactly the table before that update.
   */
  lemma RollbackRestores(seats: map<SeatId, Seat>, caught: set<SeatId>)
    requires forall x :: x in caught && x in seats ==> seats[x].status == AVAILABLE
    ensures SetStatus(SetStatus(seats, caught, PENDING), caught, AVAILABLE) == seats
  {
    var once := SetStatus(seats, caught, PENDING);
    var twice := SetStatus(once, caught, AVAILABLE);
    assert forall s :: s in seats ==> twice[s] == seats[s];
  }

  /** `seats` after the statuses in `writes` were written over the seats they name (unknown ids are ignored). */
  function Interfere(seats: map<SeatId, Seat>, writes: map<SeatId, SeatStatus>): (r: map<SeatId, Seat>)
    ensures r.Keys == seats.Keys
  {
    map s | s in seats :: if s in writes then seats[s].(status := writes[s]) else seats[s]
  }

  /** The seats table once the sweep has run. */
  function SweptSeats(seats: map<SeatId, Seat>, sweep: Option<Tables>): map<SeatId, Seat>
  {
    if sweep.Some? then sweep.value.seats else seats
  }

  /** The bookings table once the sweep has run. */
  function SweptBookings(bookings: map<BookingId, Booking>, sweep: Option<Tables>): map<BookingId, Booking>
  {
    if sweep.Some? then sweep.value.bookings else bookings
  }

  /** The table of seats and the table of bookings, mutated in place by the edge functions. */
  class Database {
    var seats: map<SeatId, Seat>
    var bookings: map<BookingId, Booking>

    constructor (seats: map<SeatId, Seat>, bookings: map<BookingId, Booking>)
      ensures this.seats == seats && this.bookings == bookings
    {
      this.seats := seats;
      this.bookings := bookings;
    }

    /**
     * The `expire_pending_bookings` database function. Its body is not part of this
     * model: `sweep` is the state it leaves, and `None` stands for a call that changed
     * nothing (the handlers never look at its error).
     */
    method ExpirePendingBookings(sweep: Option<Tables>)
      modifies this
      ensures sweep.Some? ==> seats == sweep.value.seats && bookings == sweep.value.bookings
      ensures sweep.None? ==> seats == old(seats) && bookings == old(bookings)
    {
      if sweep.Some? {
        seats, bookings := sweep.value.seats, sweep.value.bookings;
      }
    }

    /** `update({status: st}).in('id', ids)`: an unguarded write of the named seats only. */
    method UpdateSeats(ids: set<SeatId>, st: SeatStatus)
      modifies this
      ensures seats == SetStatus(old(seats), ids, st)
      ensures forall x :: x in old(seats) && x !in ids ==> seats[x] == old(seats)[x]
      ensures forall x :: x in old(seats) && x in ids ==> seats[x].status == st
      ensures bookings == old(bookings)
    {
      seats := SetStatus(seats, ids, st);
    }

    /**
     * `update({status: to}).in('id', ids).eq('status', from).select()`: writes only the
     * named seats whose status is `from`, and returns the ids of the rows it changed.
     */
    method UpdateSeatsWhere(ids: seq<SeatId>, from: SeatStatus, to: SeatStatus) returns (changed: seq<SeatId>)
      modifies this
      ensures changed == Rows(old(seats), ids, None, Some(from))
      ensures forall x :: x in changed <==> x in ids && x in old(seats) && old(seats)[x].status == from
      ensures seats == SetStatus(old(seats), Elems(changed), to)
      ensures bookings == old(bookings)
    {
      changed := Rows(seats, ids, None, Some(from));
      RowsFacts(seats, ids, None, Some(from));
      seats := SetStatus(seats, Elems(changed), to);
    }

    /**
     * Writes by another invocation that lands between this handler's read of the
     * seats and its guarded write: the seats named in `writes` take the given status.
     */
    method OtherSeatWrites(writes: map<SeatId, SeatStatus>)
      modifies this
      ensures seats == Interfere(old(seats), writes)
      ensures bookings == old(bookings)
    {
      seats := Interfere(seats, writes);
    }

    /** A write by another invocation that sets the status of booking `id`, if it exists. */
    method OtherBookingWrite(id: BookingId, st: BookingStatus)
      modifies this
      ensures bookings == if id in old(bookings) then old(bookings)[id := old(bookings)[id].(status := st)] else old(bookings)
      ensures seats == old(seats)
    {
      if id in bookings {
        bookings := bookings[id := bookings[id].(status := st)];
      }
    }

    /** `insert(...)` of a booking row under a fresh id; a taken id is a key violation. */
    method InsertBooking(id: BookingId, b: Booking) returns (ok: bool)
      modifies this
      ensures ok <==> id !in old(bookings)
      ensures bookings == if ok then old(bookings)[id := b] else old(bookings)
      ensures seats == old(seats)
    {
      ok := id !in bookings;
      if ok {
        bookings := bookings[id := b];
      }
    }

    /**
     * `update({status: st}).eq('id', id)`, with the extra `.eq('status', guard)` when
     * `guard` is given; a booking that does not match is left alone and no error results.
     */
    method UpdateBookingStatus(id: BookingId, guard: Option<BookingStatus>, st: BookingStatus)
      modifies this
      ensures id in old(bookings) && (guard.None? || old(bookings)[id].status == guard.value) ==>
                bookings == old(bookings)[id := old(bookings)[id].(status := st)]
      ensures !(id in old(bookings) && (guard.None? || old(bookings)[id].status == guard.value)) ==>
                bookings == old(bookings)
      ensures seats == old(seats)
    {
      if id in bookings && (guard.None? || bookings[id].status == guard.value) {
        bookings := bookings[id := bookings[id].(status := st)];
      }
    }
  }
}
