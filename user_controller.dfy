/** The payment transition of src/controllers/User.controller.js
    (`payForTicket`) as a function of the store. */
module UserController {
  import opened Records
  import opened BookingController

  /** Everything the controller checks before it writes. */
  ghost predicate PaymentAccepted(st: Store, bookingId: BookingId, amount: real)
  {
    bookingId in st.bookings &&
    var b := st.bookings[bookingId];
    b.status == Pending && b.ticket in st.tickets && b.user in st.users
    && amount == TotalAmount(st.tickets[b.ticket].price, b.quantity)
    && st.users[b.user].balance >= amount
  }

  /** `payForTicket`: check the status, that the submitted amount is exactly
      price times quantity, and the balance; then mark the booking paid,
      debit the user and take the booked quantity off the ticket without
      looking at its stock. A booking whose ticket or user is gone fails on
      the null populated reference, inside the transaction. */
  function Pay(st: Store, bookingId: BookingId, amount: real, now: Time): (r: Outcome<()>)
    requires Valid(st)
    ensures Valid(r.store) && r.store.nextId == st.nextId
    ensures r.result.Err? ==> r.store == st
    // the validations, in the order the controller makes them
    ensures r.result == Err(BookingNotFound) <==> bookingId !in st.bookings
    ensures bookingId in st.bookings ==>
      var b := st.bookings[bookingId];
      (r.result == Err(CanceledRebook) <==> b.status == Canceled)
      && (r.result == Err(AlreadyProcessed) <==> b.status == Paid || b.status == Confirmed)
      && (r.result == Err(NullReadPrice) <==> b.status == Pending && b.ticket !in st.tickets)
      && (r.result == Err(IncorrectAmount) <==>
            b.status == Pending && b.ticket in st.tickets
            && amount != TotalAmount(st.tickets[b.ticket].price, b.quantity))
      && (r.result == Err(NullReadBalance) <==>
            b.status == Pending && b.ticket in st.tickets
            && amount == TotalAmount(st.tickets[b.ticket].price, b.quantity) && b.user !in st.users)
      && (r.result == Err(InsufficientBalance) <==>
            b.status == Pending && b.ticket in st.tickets
            && amount == TotalAmount(st.tickets[b.ticket].price, b.quantity)
            && b.user in st.users && st.users[b.user].balance < amount)
    ensures r.result.Ok? <==> PaymentAccepted(st, bookingId, amount)
    // a success: the booking, its user and its ticket, and nothing else
    ensures r.result.Ok? ==>
      PaymentAccepted(st, bookingId, amount) &&
      var b := st.bookings[bookingId];
      var u, t := st.users[b.user], st.tickets[b.ticket];
      r.store.bookings == st.bookings[bookingId := b.(
        status := Paid,
        paymentDetails := PaymentDetails(TotalAmount(t.price, b.quantity), Some(now)),
        confirmationTime := Some(now))]
      && r.store.users == st.users[b.user := u.(balance := u.balance - amount)]
      && r.store.users[b.user].balance >= 0.0
      && r.store.tickets == st.tickets[b.ticket := t.(quantity := t.quantity - b.quantity,
                                                      available := t.quantity - b.quantity > 0)]
  {
    if bookingId !in st.bookings then Outcome(st, Err(BookingNotFound))
    else
      var b := st.bookings[bookingId];
      if b.status == Canceled then Outcome(st, Err(CanceledRebook))
      else if b.status == Confirmed || b.status == Paid then Outcome(st, Err(AlreadyProcessed))
      else if b.ticket !in st.tickets then Outcome(st, Err(NullReadPrice))
      else
        var ticket := st.tickets[b.ticket];
        if amount != TotalAmount(ticket.price, b.quantity) then Outcome(st, Err(IncorrectAmount))
        else if b.user !in st.users then Outcome(st, Err(NullReadBalance))
        else
          var user := st.users[b.user];
          if user.balance < amount then Outcome(st, Err(InsufficientBalance))
          else
            var paid := b.(paymentDetails := PaymentDetails(amount, Some(now)), status := Paid,
                           confirmationTime := Some(now));
            Outcome(st.(bookings := st.bookings[bookingId := paid],
                        users := st.users[b.user := user.(balance := user.balance - amount)],
                        tickets := st.tickets[b.ticket := Restocked(ticket, -b.quantity)]),
                    Ok(()))
  }
}
