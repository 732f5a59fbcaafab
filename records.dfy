/** The persistent records of the reservation system (the three Mongoose
    schemas), the error values the controllers report, and the store that
    holds the three collections. */
module Records {

  type BookingId = nat
  type TicketId = nat
  type UserId = nat

  /** A timestamp, in milliseconds since the epoch (a JavaScript `Date`). */
  type Time = int

  datatype Option<T> = None | Some(value: T)

  /** The four values of the `status` enum of a booking. */
  datatype Status = Pending | Paid | Confirmed | Canceled

  /** A booking is active while it is pending, paid or confirmed. */
  predicate IsActive(s: Status)
  {
    s == Pending || s == Paid || s == Confirmed
  }

  /** `amount` defaults to 0; `paymentTime` is absent until payment. */
  datatype PaymentDetails = PaymentDetails(amount: real, paymentTime: Option<Time>)

  datatype Booking = Booking(
    user: UserId,
    ticket: TicketId,
    quantity: int,
    status: Status,
    paymentDetails: PaymentDetails,
    bookingTime: Time,
    confirmationTime: Option<Time>)

  /** `bookings` holds plain booking ids (an array of ObjectIds). */
  datatype Ticket = Ticket(
    name: string,
    price: real,
    quantity: int,
    available: bool,
    bookings: seq<BookingId>)

  datatype User = User(username: string, email: string, balance: real)

  /** The (message, HTTP status) pair an `ErrorHandler` carries. */
  datatype Error = Error(message: string, status: nat)

  datatype Result<T> = Ok(value: T) | Err(error: Error)

  const MissingFields := Error("Please provide all required fields", 400)
  const TicketNotFound := Error("Ticket not found", 404)
  const NotEnoughTickets := Error("Not enough tickets available", 400)
  const UserNotFound := Error("User not found", 404)
  const AlreadyBooked := Error("You have already booked this ticket", 400)
  const BookingNotFound := Error("Booking not found", 404)
  const AlreadyConfirmed := Error("Booking already confirmed", 400)
  const NotPaidYet := Error("Booking has not been paid yet", 400)
  const NotInTicketBookings := Error("Booking not found in ticket bookings", 404)
  const AlreadyCanceled := Error("Booking already canceled", 400)
  const CanceledRebook := Error("This booking has been cancelled. Please rebook!", 400)
  const AlreadyProcessed := Error("Booking already processed", 400)
  const IncorrectAmount := Error("Incorrect payment amount. Please try again.", 400)
  const InsufficientBalance := Error("Insufficient balance", 400)

  /** The TypeErrors JavaScript raises when a property of a null reference
      (a populated reference to a record that is gone) is read; the catch
      blocks turn each into a 500 error carrying its message. */
  const NullReadPrice := Error("Cannot read properties of null (reading 'price')", 500)
  const NullReadBalance := Error("Cannot read properties of null (reading 'balance')", 500)
  const NullReadId := Error("Cannot read properties of null (reading '_id')", 500)
  const NullReadBookings := Error("Cannot read properties of null (reading 'bookings')", 500)

  /** `ticket.price * quantity`, exact (no IEEE-754 rounding). */
  function TotalAmount(price: real, quantity: int): real
  {
    price * quantity as real
  }

  /** The refund on canceling a confirmed booking: 90% of the stored amount. */
  function ConfirmedRefund(amount: real): real
  {
    amount * 0.9
  }

  /** A ticket whose quantity moved by `delta`, with `available` recomputed
      as `quantity > 0`. */
  function Restocked(t: Ticket, delta: int): Ticket
  {
    t.(quantity := t.quantity + delta, available := t.quantity + delta > 0)
  }

  predicate SamePair(b: Booking, user: UserId, ticket: TicketId)
  {
    b.user == user && b.ticket == ticket
  }

  /** The three collections. `nextId` stands for the database's id
      generator: a booking created now gets `nextId`, so ids in ascending
      order are the order of insertion. */
  datatype Store = Store(
    bookings: map<BookingId, Booking>,
    tickets: map<TicketId, Ticket>,
    users: map<UserId, User>,
    nextId: nat)

  /** Every stored booking was issued by the id generator. */
  ghost predicate Valid(st: Store)
  {
    forall id :: id in st.bookings ==> id < st.nextId
  }

  /** At most one active booking per (user, ticket) pair. */
  ghost predicate UniqueActive(bs: map<BookingId, Booking>)
  {
    forall i, j :: i in bs && j in bs && i != j && IsActive(bs[i].status) && IsActive(bs[j].status)
      ==> bs[i].user != bs[j].user || bs[i].ticket != bs[j].ticket
  }
}
