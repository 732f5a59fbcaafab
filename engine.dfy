/** The engine as the controllers run it: one store object whose three
    collections are updated record by record, in the order the controllers
    write them. Each method is proved to leave exactly the state (and return
    exactly the result) that the matching function of BookingController or
    UserController describes, so every property proved of those functions
    holds of the methods. */
module Engine {
  import opened Records
  import opened BookingController
  import opened UserController

  class BookingStore {
    var bookings: map<BookingId, Booking>
    var tickets: map<TicketId, Ticket>
    var users: map<UserId, User>
    var nextId: nat

    function State(): Store
      reads this
    {
      Store(bookings, tickets, users, nextId)
    }

    ghost predicate Valid()
      reads this
    {
      Records.Valid(State())
    }

    /** A store holding the given tickets and users and no booking yet. */
    constructor (initialTickets: map<TicketId, Ticket>, initialUsers: map<UserId, User>)
      ensures Valid()
      ensures State() == Store(map[], initialTickets, initialUsers, 0)
    {
      bookings, tickets, users, nextId := map[], initialTickets, initialUsers, 0;
    }

    /** `bookTicket` (src/controllers/Booking.controller.js). */
    method BookTicket(userId: Option<UserId>, ticketId: Option<TicketId>, quantity: Option<int>, now: Time)
      returns (r: Result<BookingId>)
      requires Valid()
      modifies this
      ensures Valid()
      ensures Book(old(State()), userId, ticketId, quantity, now) == Outcome(State(), r)
    {
      if userId.None? || ticketId.None? || quantity.None? {
        return Err(MissingFields);
      }
      var u, t, q := userId.value, ticketId.value, quantity.value;
      if t !in tickets {
        return Err(TicketNotFound);
      }
      var ticket := tickets[t];
      if ticket.quantity < q {
        return Err(NotEnoughTickets);
      }
      if u !in users {
        return Err(UserNotFound);
      }
      var existing := FindFor(bookings, u, t, true, nextId);
      if existing.Some? {
        return Err(AlreadyBooked);
      }
      var canceled := FindFor(bookings, u, t, false, nextId);
      if canceled.Some? {
        // revive the canceled booking of the pair
        var id := canceled.value;
        var booking := bookings[id];
        booking := booking.(status := Pending);
        booking := booking.(quantity := q);
        booking := booking.(paymentDetails := booking.paymentDetails.(amount := TotalAmount(ticket.price, q)));
        booking := booking.(bookingTime := now);
        bookings := bookings[id := booking];
        return Ok(id);
      }
      var id := nextId;
      nextId := nextId + 1;
      bookings := bookings[id := Booking(u, t, q, Pending, PaymentDetails(TotalAmount(ticket.price, q), None), now, None)];
      return Ok(id);
    }

    /** `payForTicket` (src/controllers/User.controller.js). */
    method PayForTicket(bookingId: BookingId, amount: real, now: Time) returns (r: Result<()>)
      requires Valid()
      modifies this
      ensures Valid()
      ensures Pay(old(State()), bookingId, amount, now) == Outcome(State(), r)
    {
      if bookingId !in bookings {
        return Err(BookingNotFound);
      }
      var booking := bookings[bookingId];
      if booking.status == Canceled {
        return Err(CanceledRebook);
      }
      if booking.status == Confirmed || booking.status == Paid {
        return Err(AlreadyProcessed);
      }
      if booking.ticket !in tickets {
        return Err(NullReadPrice);
      }
      var ticket := tickets[booking.ticket];
      var totalAmount := TotalAmount(ticket.price, booking.quantity);
      if amount != totalAmount {
        return Err(IncorrectAmount);
      }
      if booking.user !in users {
        return Err(NullReadBalance);
      }
      var user := users[booking.user];
      if user.balance < amount {
        return Err(InsufficientBalance);
      }
      booking := booking.(paymentDetails := PaymentDetails(amount, Some(now)));
      booking := booking.(status := Paid);
      booking := booking.(confirmationTime := Some(now));
      user := user.(balance := user.balance - amount);
      users := users[booking.user := user];
      ticket := ticket.(quantity := ticket.quantity - booking.quantity);
      ticket := ticket.(available := ticket.quantity > 0);
      tickets := tickets[booking.ticket := ticket];
      bookings := bookings[bookingId := booking];
      return Ok(());
    }

    /** `confirmBooking` (src/controllers/Booking.controller.js). Not
        transactional: the status is saved before the ticket lookup. */
    method ConfirmBooking(bookingId: BookingId, now: Time) returns (r: Result<Booking>)
      requires Valid()
      modifies this
      ensures Valid()
      ensures Confirm(old(State()), bookingId, now) == Outcome(State(), r)
    {
      if bookingId !in bookings {
        return Err(BookingNotFound);
      }
      var booking := bookings[bookingId];
      if booking.status == Confirmed {
        return Err(AlreadyConfirmed);
      }
      if booking.status != Confirmed && booking.status != Paid {
        return Err(NotPaidYet);
      }
      booking := booking.(status := Confirmed);
      booking := booking.(confirmationTime := Some(now));
      bookings := bookings[bookingId := booking];
      if booking.ticket !in tickets {
        return Err(NullReadBookings);
      }
      var ticket := tickets[booking.ticket];
      if bookingId in ticket.bookings {
        return Ok(booking);
      }
      return Err(NotInTicketBookings);
    }

    /** `cancelBooking` (src/controllers/Booking.controller.js); returns the
        amount credited back. Writes come in the controller's order inside
        one transaction, so a failure after a write undoes it. */
    method CancelBooking(bookingId: BookingId) returns (r: Result<real>)
      requires Valid()
      modifies this
      ensures Valid()
      ensures Cancel(old(State()), bookingId) == Outcome(State(), r)
    {
      if bookingId !in bookings {
        return Err(BookingNotFound);
      }
      var booking := bookings[bookingId];
      if booking.status == Canceled {
        return Err(AlreadyCanceled);
      }
      if booking.ticket !in tickets {
        return Err(NullReadId);
      }
      var ticket := tickets[booking.ticket];
      if booking.status == Pending {
        bookings := bookings[bookingId := booking.(status := Canceled)];
        return Ok(0.0);
      }
      ticket := ticket.(quantity := ticket.quantity + booking.quantity);
      ticket := ticket.(available := ticket.quantity > 0);
      if booking.status == Paid {
        // ticket and booking are written first; a missing user aborts the
        // transaction, which undoes both writes
        var savedTickets, savedBookings := tickets, bookings;
        tickets := tickets[booking.ticket := ticket];
        bookings := bookings[bookingId := booking.(status := Canceled)];
        if booking.user !in users {
          tickets, bookings := savedTickets, savedBookings;
          return Err(NullReadId);
        }
        var user := users[booking.user];
        var refundAmount := Refund(booking.status, booking.paymentDetails.amount);
        users := users[booking.user := user.(balance := user.balance + refundAmount)];
        return Ok(refundAmount);
      }
      // confirmed: the user is looked up first, then user, ticket and booking are saved
      if booking.user !in users {
        return Err(NullReadId);
      }
      var user := users[booking.user];
      var refundAmount := Refund(booking.status, booking.paymentDetails.amount);
      users := users[booking.user := user.(balance := user.balance + refundAmount)];
      tickets := tickets[booking.ticket := ticket];
      bookings := bookings[bookingId := booking.(status := Canceled)];
      return Ok(refundAmount);
    }

    /** The first `cron.schedule` task: cancel every pending booking made
        before `now` minus five minutes. */
    method SweepPendingBookings(now: Time)
      requires Valid()
      modifies this
      ensures Valid()
      ensures State() == old(State()).(bookings := PendingSwept(old(bookings), Cutoff(now), old(nextId)))
    {
      var cutoff := Cutoff(now);
      for id := 0 to nextId
        invariant bookings == PendingSwept(old(bookings), cutoff, id)
        invariant tickets == old(tickets) && users == old(users) && nextId == old(nextId)
      {
        if id in bookings && PendingStale(bookings[id], cutoff) {
          bookings := bookings[id := bookings[id].(status := Canceled)];
        }
      }
    }

    /** One iteration of the second task, on booking `id`; false when it
        throws on a missing user or ticket. */
    method SweepStaleBooking(id: BookingId, cutoff: Time) returns (ok: bool)
      requires Valid()
      modifies this
      ensures Valid()
      ensures StaleStep(old(State()), id, cutoff) == SweepOutcome(State(), ok)
    {
      ok := true;
      if id in bookings && Stale(bookings[id], cutoff) {
        var booking := bookings[id];
        if booking.status == Paid {
          if booking.user !in users {
            // reading the id of a null user throws
            return false;
          }
          var user := users[booking.user];
          users := users[booking.user := user.(balance := user.balance + booking.paymentDetails.amount)];
          if booking.ticket !in tickets {
            // reading the quantity of a null ticket throws; the credit is already saved
            return false;
          }
          var ticket := tickets[booking.ticket];
          ticket := ticket.(quantity := ticket.quantity + booking.quantity);
          ticket := ticket.(available := ticket.quantity > 0);
          tickets := tickets[booking.ticket := ticket];
        }
        bookings := bookings[id := booking.(status := Canceled)];
      }
    }

    /** The second `cron.schedule` task: cancel every pending or paid booking
        made before `now` minus five minutes, refunding and restocking the
        paid ones. Each record is saved on its own; a missing user or ticket
        ends the pass, with `completed` false. */
    method SweepStaleBookings(now: Time) returns (completed: bool)
      requires Valid()
      modifies this
      ensures Valid()
      ensures StaleSwept(old(State()), Cutoff(now), old(nextId)) == SweepOutcome(State(), completed)
    {
      var cutoff := Cutoff(now);
      var n := nextId;
      var id := 0;
      completed := true;
      while id < n && completed
        invariant id <= n && nextId == n && Valid()
        invariant StaleSwept(old(State()), cutoff, id) == SweepOutcome(State(), completed)
      {
        completed := SweepStaleBooking(id, cutoff);
        id := id + 1;
      }
      if !completed {
        StaleSweptStopped(old(State()), cutoff, id, n);
      }
    }
  }
}
