/**
 * The seat grid's rules: the display class of each seat, whether its button is
 * disabled, and what a click does to the selection.
 */
module SeatGrid {
  import opened Store
  import opened BookingContext

  /**
   * A seat as the client holds it. Its `status` is whatever string the store returned,
   * cast to the three known names without a check, so any other text can appear.
   */
  datatype ClientSeat = ClientSeat(id: SeatId, showId: ShowId, seatNumber: int, status: string)

  const Available := "AVAILABLE"
  const Pending := "PENDING"
  const Booked := "BOOKED"

  const SelectedClass := "seat-selected"
  const AvailableClass := "seat-available cursor-pointer"
  const PendingClass := "seat-pending"
  const BookedClass := "seat-booked"

  /** `getSeatClass(seat)` against the current selection. */
  function SeatClass(seat: ClientSeat, selected: seq<SeatId>): (c: string)
    ensures seat.id in selected ==> c == SelectedClass
    ensures seat.id !in selected ==>
              && (c == AvailableClass <==> seat.status == Available)
              && (c == PendingClass <==> seat.status == Pending)
              && (c == BookedClass <==> seat.status != Available && seat.status != Pending)
  {
    if seat.id in selected then SelectedClass
    else if seat.status == Available then AvailableClass
    else if seat.status == Pending then PendingClass
    else if seat.status == Booked then BookedClass
    else BookedClass
  }

  /** The `disabled` attribute of a seat's button. */
  predicate Disabled(seat: ClientSeat, selected: seq<SeatId>)
  {
    seat.status != Available && seat.id !in selected
  }

  /**
   * `handleSeatClick(seat)`: the selection after the click. The seat is toggled when it
   * is AVAILABLE or already selected; otherwise the selection stays as it was.
   */
  function SeatClick(seat: ClientSeat, selected: seq<SeatId>): seq<SeatId>
  {
    if seat.status == Available || seat.id in selected then Toggled(selected, seat.id) else selected
  }

  /** A button is disabled exactly when clicking it would leave the selection unchanged. */
  lemma DisabledIffNoEffect(seat: ClientSeat, selected: seq<SeatId>)
    ensures Disabled(seat, selected) <==> SeatClick(seat, selected) == selected
  {
    if !Disabled(seat, selected) {
      assert (seat.id in SeatClick(seat, selected)) != (seat.id in selected);
    }
  }

  /** An enabled button is exactly one shown as selected or as available. */
  lemma EnabledIffSelectableClass(seat: ClientSeat, selected: seq<SeatId>)
    ensures !Disabled(seat, selected) <==> SeatClass(seat, selected) in {SelectedClass, AvailableClass}
  {
    assert SelectedClass != AvailableClass && SelectedClass != PendingClass && SelectedClass != BookedClass;
    assert AvailableClass != PendingClass && AvailableClass != BookedClass;
  }

  /**
   * A selected seat can always be deselected, whatever its status now is: its button is
   * enabled and a click removes it while keeping every other selected seat.
   */
  lemma SelectedCanBeDeselected(seat: ClientSeat, selected: seq<SeatId>)
    requires seat.id in selected
    ensures !Disabled(seat, selected)
    ensures seat.id !in SeatClick(seat, selected)
    ensures forall x :: x != seat.id ==> (x in SeatClick(seat, selected) <==> x in selected)
  {
  }

  /**
   * A seat whose status is one the store writes is shown by that status when it is not
   * selected, and its button is enabled exactly when the store holds it AVAILABLE.
   */
  lemma StoredStatusShown(seat: ClientSeat, selected: seq<SeatId>, st: SeatStatus)
    requires seat.status == SeatStatusName(st) && seat.id !in selected
    ensures SeatClass(seat, selected) == (match st
                                          case AVAILABLE => AvailableClass
                                          case PENDING => PendingClass
                                          case BOOKED => BookedClass)
    ensures Disabled(seat, selected) <==> st != AVAILABLE
  {
  }

  /** Clicking a seat that is neither available nor selected can never select it. */
  lemma UnavailableNeverSelected(seat: ClientSeat, selected: seq<SeatId>)
    requires seat.status != Available && seat.id !in selected
    ensures seat.id !in SeatClick(seat, selected)
    ensures SeatClass(seat, selected) != AvailableClass && SeatClass(seat, selected) != SelectedClass
  {
    assert AvailableClass != PendingClass && AvailableClass != BookedClass;
    assert SelectedClass != PendingClass && SelectedClass != BookedClass;
  }
}
