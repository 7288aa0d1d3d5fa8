/**
 * The request and response shapes of the two edge functions, as JSON values.
 * A field the client may leave out is an `Option`; the HTTP status code is a number.
 */
module Api {
  import opened Store

  /** The `seatIds` field of a reservation request: left out, not an array, or a list of ids. */
  datatype SeatIdsField = NoSeatIds | NotAnArray | SeatIdList(ids: seq<SeatId>)

  /** The JSON body of a `book-seats` request. */
  datatype ReserveRequest = ReserveRequest(showId: Option<string>, seatIds: SeatIdsField, userEmail: Option<string>)

  /** The JSON body of a `confirm-booking` request. */
  datatype ConfirmRequest = ConfirmRequest(bookingId: Option<string>)

  /**
   * The `booking` object of a successful response. `book-seats` fills in all four
   * fields; `confirm-booking` sends only `id` and `status`.
   */
  datatype BookingPayload = BookingPayload(id: BookingId, status: BookingStatus,
                                           expiresAt: Option<int>, seats: Option<seq<int>>)

  /** A response body: `{error, unavailableSeats?}` or `{success: true, booking}`. */
  datatype Body =
    | ErrorBody(error: string, unavailableSeats: Option<seq<int>>)
    | SuccessBody(booking: BookingPayload)

  datatype Response = Response(status: int, body: Body)

  /** JavaScript truthiness of an optional string field: present and not empty. */
  predicate Truthy(f: Option<string>)
  {
    f.Some? && f.value != ""
  }

  /** The response of the catch-all handler, e.g. for a body that is not JSON. */
  function Unexpected(): Response
  {
    Response(500, ErrorBody("An unexpected error occurred", None))
  }

  /** An error response without a seat list. */
  function Error(status: int, message: string): Response
  {
    Response(status, ErrorBody(message, None))
  }
}
