/**
 * The client-side booking state: the list of selected seat ids and the booking the
 * user is working on, with the updates the provider makes to them.
 */
module BookingContext {
  import opened Seqs
  import opened Store
  import opened Api
  import BookSeats

  /** The client's `Booking` record; `expiresAt` is `None` when the response carried none. */
  datatype ClientBooking = ClientBooking(id: BookingId, showId: ShowId, userEmail: string, seatIds: seq<SeatId>,
                                         status: BookingStatus, expiresAt: Option<int>, createdAt: int)

  /** What `supabase.functions.invoke` hands back: an invocation error, or the response body as `data`. */
  datatype Invocation = InvokeError(message: string) | Delivered(body: Body)

  /** A call that returns a value or throws an error with a message. */
  datatype Result<T> = Ok(value: T) | Err(error: string)

  /** What reading `data.booking.id` throws when the body has no `booking`. */
  const NoBookingField := "Cannot read properties of undefined (reading 'id')"

  /** `s` without any occurrence of `id`: `s.filter(x => x !== id)`. */
  function RemoveAll<T(==,!new)>(s: seq<T>, id: T): (r: seq<T>)
    ensures forall x :: x in r <==> x in s && x != id
    decreases |s|
  {
    if s == [] then []
    else (if s[0] == id then [] else [s[0]]) + RemoveAll(s[1..], id)
  }

  /** Removing keeps the order of what is left: it works piece by piece. */
  lemma {:induction false} RemoveAllConcat<T(!new)>(a: seq<T>, b: seq<T>, id: T)
    ensures RemoveAll(a + b, id) == RemoveAll(a, id) + RemoveAll(b, id)
    decreases |a|
  {
    if a == [] {
      assert a + b == b;
    } else {
      var head := if a[0] == id then [] else [a[0]];
      assert (a + b)[0] == a[0];
      assert (a + b)[1..] == a[1..] + b;
      assert RemoveAll(a + b, id) == head + RemoveAll(a[1..] + b, id);
      RemoveAllConcat(a[1..], b, id);
      assert RemoveAll(a, id) == head + RemoveAll(a[1..], id);
    }
  }

  /** Removing an id that does not occur changes nothing. */
  lemma {:induction false} RemoveAllAbsent<T(!new)>(s: seq<T>, id: T)
    requires id !in s
    ensures RemoveAll(s, id) == s
    decreases |s|
  {
    if s != [] {
      assert s[1..] == s[1..];
      assert id !in s[1..];
      RemoveAllAbsent(s[1..], id);
      assert s == [s[0]] + s[1..];
    }
  }

  /**
   * `toggleSeatSelection`'s update of the list: an id already selected is removed
   * (every occurrence), any other id is appended at the end.
   */
  function Toggled<T(==,!new)>(s: seq<T>, id: T): (r: seq<T>)
    ensures id in r <==> id !in s
    ensures forall x :: x != id ==> (x in r <==> x in s)
    ensures id !in s ==> |r| == |s| + 1 && r[..|s|] == s && r[|s|] == id
  {
    if id in s then RemoveAll(s, id) else s + [id]
  }

  /** Toggling an id that was not selected, twice, gives back the original list. */
  lemma ToggleTwiceAbsent<T(!new)>(s: seq<T>, id: T)
    requires id !in s
    ensures Toggled(Toggled(s, id), id) == s
  {
    RemoveAllConcat(s, [id], id);
    RemoveAllAbsent(s, id);
    assert RemoveAll([id], id) == [];
  }

  /** In a duplicate-free list, the element at `i` occurs neither before nor after `i`. */
  lemma UniqueAt<T>(s: seq<T>, i: nat)
    requires NoDup(s) && i < |s|
    ensures s[i] !in s[..i] && s[i] !in s[i + 1..]
  {
    forall k | 0 <= k < i ensures s[..i][k] != s[i] {
      assert s[..i][k] == s[k];
    }
    var q := s[i + 1..];
    forall k | 0 <= k < |q| ensures q[k] != s[i] {
      assert q[k] == s[i + 1 + k];
    }
  }

  /** A list is what comes before `i`, the element at `i`, and what comes after. */
  lemma SplitAt<T>(s: seq<T>, i: nat)
    requires i < |s|
    ensures s == s[..i] + [s[i]] + s[i + 1..]
  {
  }

  /** Removing an id that occurs once, between `p` and `q`, leaves `p + q`. */
  lemma RemoveMiddle<T(!new)>(p: seq<T>, id: T, q: seq<T>)
    requires id !in p && id !in q
    ensures RemoveAll(p + [id] + q, id) == p + q
  {
    RemoveAllConcat(p, [id], id);
    RemoveAllAbsent(p, id);
    assert RemoveAll([id], id) == [] by {
      assert [id][1..] == [];
    }
    assert RemoveAll(p + [id], id) == p;
    RemoveAllConcat(p + [id], q, id);
    RemoveAllAbsent(q, id);
  }

  /** Toggling twice an id that occurs once, between `p` and `q`, moves it to the end. */
  lemma ToggleTwiceMoves<T(!new)>(p: seq<T>, id: T, q: seq<T>)
    requires id !in p && id !in q
    ensures Toggled(Toggled(p + [id] + q, id), id) == p + q + [id]
  {
    var s := p + [id] + q;
    RemoveMiddle(p, id, q);
    assert id in s by { assert s[|p|] == id; }
    var once := Toggled(s, id);
    assert once == p + q;
  }

  /**
   * Toggling a selected id twice on a duplicate-free list gives back the same ids,
   * but with that id moved to the end.
   */
  lemma ToggleTwicePresent<T(!new)>(s: seq<T>, id: T)
    requires NoDup(s) && id in s
    ensures Toggled(Toggled(s, id), id) == RemoveAll(s, id) + [id]
    ensures multiset(Toggled(Toggled(s, id), id)) == multiset(s)
  {
    var p, q := Occurrence(s, id);
    RemoveMiddle(p, id, q);
    ToggleTwiceMoves(p, id, q);
    MovedSameMultiset(p, id, q);
  }

  /** The list itself comes back when the id toggled twice was already last. */
  lemma ToggleTwiceLast<T(!new)>(s: seq<T>, id: T)
    requires NoDup(s) && s != [] && s[|s| - 1] == id
    ensures Toggled(Toggled(s, id), id) == s
  {
    var p := s[..|s| - 1];
    UniqueAt(s, |s| - 1);
    SplitAt(s, |s| - 1);
    assert s == p + [id] + [];
    ToggleTwiceMoves(p, id, []);
  }

  /** An id that occurs in a duplicate-free list occurs exactly once, between `p` and `q`. */
  lemma Occurrence<T>(s: seq<T>, id: T) returns (p: seq<T>, q: seq<T>)
    requires NoDup(s) && id in s
    ensures s == p + [id] + q && id !in p && id !in q
  {
    var i :| 0 <= i < |s| && s[i] == id;
    p, q := s[..i], s[i + 1..];
    SplitAt(s, i);
    UniqueAt(s, i);
  }

  /** Moving one element to the end keeps the multiset. */
  lemma MovedSameMultiset<T>(p: seq<T>, id: T, q: seq<T>)
    ensures multiset(p + q + [id]) == multiset(p + [id] + q)
  {
    calc {
      multiset(p + q + [id]);
      multiset(p) + multiset(q) + multiset([id]);
      multiset(p + [id] + q);
    }
  }

  /** Toggling twice can reorder: ["a", "b"] becomes ["b", "a"]. */
  lemma ToggleTwiceReorders()
    ensures Toggled(Toggled(["a", "b"], "a"), "a") == ["b", "a"]
  {
    assert "a" != "b";
    assert RemoveAll(["a", "b"], "a") == ["b"] by {
      assert ["a", "b"][1..] == ["b"];
      assert ["b"][1..] == [];
    }
  }

  /**
   * The body `bookSeats` sends passes `book-seats`' field check exactly when the show id
   * and the e-mail are not empty and at least one seat is selected: with nothing selected
   * the handler answers 400 without touching the store.
   */
  lemma BookRequestWellFormed(p: BookingProvider, showId: ShowId, userEmail: string)
    ensures BookSeats.WellFormed(p.BookRequest(showId, userEmail)) <==>
              showId != "" && userEmail != "" && p.selectedSeats != []
  {
  }

  /** The provider's state: `selectedSeats` and `currentBooking`. */
  class BookingProvider {
    var selectedSeats: seq<SeatId>
    var currentBooking: Option<ClientBooking>

    constructor ()
      ensures selectedSeats == [] && currentBooking == None
    {
      selectedSeats := [];
      currentBooking := None;
    }

    /** `toggleSeatSelection(seatId)`. */
    method ToggleSeatSelection(seatId: SeatId)
      modifies this
      ensures selectedSeats == Toggled(old(selectedSeats), seatId)
      ensures currentBooking == old(currentBooking)
    {
      selectedSeats := Toggled(selectedSeats, seatId);
    }

    /** `clearSelection()`: no seat selected and no current booking. */
    method ClearSelection()
      modifies this
      ensures selectedSeats == [] && currentBooking == None
    {
      selectedSeats := [];
      currentBooking := None;
    }

    /** The body `bookSeats` sends to `book-seats`: the show, the current selection and the e-mail. */
    function BookRequest(showId: ShowId, userEmail: string): (r: ReserveRequest)
      reads this
      ensures r.seatIds.SeatIdList? && r.seatIds.ids == selectedSeats
      ensures r.showId == Some(showId) && r.userEmail == Some(userEmail)
    {
      ReserveRequest(Some(showId), SeatIdList(selectedSeats), Some(userEmail))
    }

    /**
     * `bookSeats(showId, userEmail)` once `book-seats` answered with `reply`; `now` is
     * the clock that stamps `created_at`. A success records the new booking under the
     * response's id, status and expiry, with the selection as its seats; any error is
     * thrown and leaves the state as it was.
     */
    method BookSeats(showId: ShowId, userEmail: string, reply: Invocation, now: int) returns (r: Result<ClientBooking>)
      modifies this
      ensures r.Ok? <==> reply.Delivered? && reply.body.SuccessBody?
      ensures r.Ok? ==>
                var p := reply.body.booking;
                && r.value == ClientBooking(p.id, showId, userEmail, old(selectedSeats), p.status, p.expiresAt, now)
                && currentBooking == Some(r.value)
      ensures r.Err? ==> currentBooking == old(currentBooking)
      ensures reply.InvokeError? ==> r == Err(reply.message)
      ensures reply.Delivered? && reply.body.ErrorBody? && reply.body.error != "" ==> r == Err(reply.body.error)
      ensures selectedSeats == old(selectedSeats)
    {
      if reply.InvokeError? {
        return Err(reply.message);
      }
      var data := reply.body;
      if data.ErrorBody? {
        if data.error != "" {
          return Err(data.error);
        }
        return Err(NoBookingField);
      }
      var booking := ClientBooking(data.booking.id, showId, userEmail, selectedSeats,
                                   data.booking.status, data.booking.expiresAt, now);
      currentBooking := Some(booking);
      return Ok(booking);
    }

    /**
     * `confirmBooking(bookingId)` once `confirm-booking` answered with `reply`. Unless
     * the reply carries an error, the current booking (if any) becomes CONFIRMED and
     * nothing else about it changes, and the selection is emptied; an error is thrown
     * and leaves the state as it was.
     */
    method ConfirmBooking(bookingId: BookingId, reply: Invocation) returns (r: Result<()>)
      modifies this
      ensures r.Err? <==> reply.InvokeError? || (reply.body.ErrorBody? && reply.body.error != "")
      ensures r.Ok? ==>
                && selectedSeats == []
                && currentBooking == (if old(currentBooking).Some? then Some(old(currentBooking).value.(status := Confirmed))
                                      else None)
      ensures r.Err? ==> selectedSeats == old(selectedSeats) && currentBooking == old(currentBooking)
    {
      if reply.InvokeError? {
        return Err(reply.message);
      }
      if reply.body.ErrorBody? && reply.body.error != "" {
        return Err(reply.body.error);
      }
      if currentBooking.Some? {
        currentBooking := Some(currentBooking.value.(status := Confirmed));
      }
      selectedSeats := [];
      return Ok(());
    }
  }
}
