/** The transitions of src/controllers/Booking.controller.js as functions of
    the store: reserve (`bookTicket`), confirm, cancel and the two expiry
    sweepers, with what each promises. */
module BookingController {
  import opened Records

  /** The store after an operation together with what the operation reports. */
  datatype Outcome<T> = Outcome(store: Store, result: Result<T>)

  predicate Matches(b: Booking, user: UserId, ticket: TicketId, active: bool)
  {
    SamePair(b, user, ticket) && IsActive(b.status) == active
  }

  /** Some booking of the pair is active. */
  ghost predicate HasActive(bs: map<BookingId, Booking>, user: UserId, ticket: TicketId)
  {
    exists id :: id in bs && Matches(bs[id], user, ticket, true)
  }

  /** Some booking of the pair is canceled. */
  ghost predicate HasCanceled(bs: map<BookingId, Booking>, user: UserId, ticket: TicketId)
  {
    exists id :: id in bs && Matches(bs[id], user, ticket, false)
  }

  /** `Booking.findOne` for the pair, among ids below `n`, filtered to the
      active statuses or to `canceled`: the first match in insertion order. */
  function FindFor(bs: map<BookingId, Booking>, user: UserId, ticket: TicketId, active: bool, n: nat)
    : (r: Option<BookingId>)
    ensures r.Some? ==> r.value < n && r.value in bs && Matches(bs[r.value], user, ticket, active)
    ensures r.Some? ==> forall j :: j in bs && j < r.value ==> !Matches(bs[j], user, ticket, active)
    ensures r.None? ==> forall j :: j in bs && j < n ==> !Matches(bs[j], user, ticket, active)
  {
    if n == 0 then None
    else
      var earlier := FindFor(bs, user, ticket, active, n - 1);
      if earlier.Some? then earlier
      else if n - 1 in bs && Matches(bs[n - 1], user, ticket, active) then Some(n - 1)
      else None
  }

  /** The fields that a reservation resets, on a revived or a new booking. */
  function Reserved(b: Booking, price: real, quantity: int, now: Time): Booking
  {
    b.(status := Pending, quantity := quantity,
       paymentDetails := b.paymentDetails.(amount := TotalAmount(price, quantity)),
       bookingTime := now)
  }

  /** `bookTicket`: validate the fields, the ticket, its stock, the user and
      the absence of an active booking for the pair; then revive a canceled
      booking of the pair or create a new pending one. Stock is not touched. */
  function Book(st: Store, userId: Option<UserId>, ticketId: Option<TicketId>, quantity: Option<int>, now: Time)
    : (r: Outcome<BookingId>)
    requires Valid(st)
    ensures Valid(r.store)
    ensures r.result.Err? ==> r.store == st
    ensures r.store.tickets == st.tickets && r.store.users == st.users
    // the validations, in the order the controller makes them
    ensures r.result == Err(MissingFields) <==> userId.None? || ticketId.None? || quantity.None?
    ensures userId.Some? && ticketId.Some? && quantity.Some? ==>
      var u, t, q := userId.value, ticketId.value, quantity.value;
      (r.result == Err(TicketNotFound) <==> t !in st.tickets)
      && (r.result == Err(NotEnoughTickets) <==> t in st.tickets && st.tickets[t].quantity < q)
      && (r.result == Err(UserNotFound) <==>
            t in st.tickets && st.tickets[t].quantity >= q && u !in st.users)
      && (r.result == Err(AlreadyBooked) <==>
            t in st.tickets && st.tickets[t].quantity >= q && u in st.users && HasActive(st.bookings, u, t))
      && (r.result.Ok? <==>
            t in st.tickets && st.tickets[t].quantity >= q && u in st.users && !HasActive(st.bookings, u, t))
    // the booking that a success leaves, and that the rest is untouched
    ensures r.result.Ok? ==>
      userId.Some? && ticketId.Some? && quantity.Some? && ticketId.value in st.tickets &&
      var id, u, t, q := r.result.value, userId.value, ticketId.value, quantity.value;
      id in r.store.bookings &&
      var b := r.store.bookings[id];
      SamePair(b, u, t) && b.status == Pending && b.quantity == q
      && b.paymentDetails.amount == TotalAmount(st.tickets[t].price, q) && b.bookingTime == now
      && r.store.bookings.Keys == st.bookings.Keys + {id}
      && (forall j :: j in st.bookings && j != id ==> r.store.bookings[j] == st.bookings[j])
      && (id in st.bookings <==> HasCanceled(st.bookings, u, t))
      && (id in st.bookings ==>
            Matches(st.bookings[id], u, t, false) && r.store.nextId == st.nextId
            && b.paymentDetails.paymentTime == st.bookings[id].paymentDetails.paymentTime
            && b.confirmationTime == st.bookings[id].confirmationTime)
      && (id !in st.bookings ==>
            id == st.nextId && r.store.nextId == st.nextId + 1
            && b.paymentDetails.paymentTime.None? && b.confirmationTime.None?)
  {
    if userId.None? || ticketId.None? || quantity.None? then Outcome(st, Err(MissingFields))
    else
      var u, t, q := userId.value, ticketId.value, quantity.value;
      if t !in st.tickets then Outcome(st, Err(TicketNotFound))
      else
        var ticket := st.tickets[t];
        if ticket.quantity < q then Outcome(st, Err(NotEnoughTickets))
        else if u !in st.users then Outcome(st, Err(UserNotFound))
        else if FindFor(st.bookings, u, t, true, st.nextId).Some? then Outcome(st, Err(AlreadyBooked))
        else
          match FindFor(st.bookings, u, t, false, st.nextId)
          case Some(id) =>
            var revived := Reserved(st.bookings[id], ticket.price, q, now);
            Outcome(st.(bookings := st.bookings[id := revived]), Ok(id))
          case None =>
            var id := st.nextId;
            var created := Reserved(Booking(u, t, q, Pending, PaymentDetails(0.0, None), now, None), ticket.price, q, now);
            Outcome(st.(bookings := st.bookings[id := created], nextId := id + 1), Ok(id))
  }

  /** `confirmBooking`: `paid` becomes `confirmed`. The status write is saved
      before the ticket's back-references are consulted, so it persists even
      when that lookup then reports an error. */
  function Confirm(st: Store, bookingId: BookingId, now: Time): (r: Outcome<Booking>)
    requires Valid(st)
    ensures Valid(r.store)
    ensures r.store.tickets == st.tickets && r.store.users == st.users && r.store.nextId == st.nextId
    ensures bookingId !in st.bookings ==> r == Outcome(st, Err(BookingNotFound))
    ensures bookingId in st.bookings ==>
      var b := st.bookings[bookingId];
      (b.status == Confirmed ==> r == Outcome(st, Err(AlreadyConfirmed)))
      && (b.status == Pending || b.status == Canceled ==> r == Outcome(st, Err(NotPaidYet)))
      && (b.status == Paid ==>
            var c := b.(status := Confirmed, confirmationTime := Some(now));
            r.store.bookings == st.bookings[bookingId := c]
            && (r.result.Ok? <==> b.ticket in st.tickets && bookingId in st.tickets[b.ticket].bookings)
            && (r.result.Ok? ==> r.result.value == c)
            && (r.result.Err? ==>
                  r.result.error == if b.ticket in st.tickets then NotInTicketBookings else NullReadBookings))
  {
    if bookingId !in st.bookings then Outcome(st, Err(BookingNotFound))
    else
      var b := st.bookings[bookingId];
      if b.status == Confirmed then Outcome(st, Err(AlreadyConfirmed))
      else if b.status != Paid then Outcome(st, Err(NotPaidYet))
      else
        var c := b.(status := Confirmed, confirmationTime := Some(now));
        var saved := st.(bookings := st.bookings[bookingId := c]);
        if b.ticket !in st.tickets then Outcome(saved, Err(NullReadBookings))
        else if bookingId in st.tickets[b.ticket].bookings then Outcome(saved, Ok(c))
        else Outcome(saved, Err(NotInTicketBookings))
  }

  function AsCanceled(b: Booking): Booking
  {
    b.(status := Canceled)
  }

  /** What canceling a booking in status `s` credits back. */
  function Refund(s: Status, amount: real): real
  {
    match s
    case Paid => amount
    case Confirmed => ConfirmedRefund(amount)
    case _ => 0.0
  }

  /** `cancelBooking`: from `pending` only the status changes; from `paid` and
      `confirmed` the ticket gets the booked quantity back and the user the
      refund. A booking whose ticket (or, when a refund is due, whose user)
      is gone fails on the null populated reference. */
  function Cancel(st: Store, bookingId: BookingId): (r: Outcome<real>)
    requires Valid(st)
    ensures Valid(r.store) && r.store.nextId == st.nextId
    ensures r.result.Err? ==> r.store == st
    ensures r.result == Err(BookingNotFound) <==> bookingId !in st.bookings
    ensures r.result == Err(AlreadyCanceled) <==>
      bookingId in st.bookings && st.bookings[bookingId].status == Canceled
    ensures r.result == Err(NullReadId) <==>
      bookingId in st.bookings &&
      var b := st.bookings[bookingId];
      b.status != Canceled && (b.ticket !in st.tickets || (b.status != Pending && b.user !in st.users))
    ensures r.result.Ok? <==>
      bookingId in st.bookings &&
      var b := st.bookings[bookingId];
      b.status != Canceled && b.ticket in st.tickets && (b.status == Pending || b.user in st.users)
    ensures r.result.Ok? ==>
      bookingId in st.bookings &&
      var b := st.bookings[bookingId];
      r.store.bookings == st.bookings[bookingId := AsCanceled(b)]
      && (b.status == Pending ==>
            r.result.value == 0.0 && r.store.tickets == st.tickets && r.store.users == st.users)
      && (b.status != Pending ==>
            b.ticket in st.tickets && b.user in st.users
            && r.result.value == Refund(b.status, b.paymentDetails.amount)
            && r.store.tickets == st.tickets[b.ticket := Restocked(st.tickets[b.ticket], b.quantity)]
            && r.store.users == st.users[b.user := st.users[b.user].(balance := st.users[b.user].balance + r.result.value)])
  {
    if bookingId !in st.bookings then Outcome(st, Err(BookingNotFound))
    else
      var b := st.bookings[bookingId];
      if b.status == Canceled then Outcome(st, Err(AlreadyCanceled))
      else if b.ticket !in st.tickets then Outcome(st, Err(NullReadId))
      else if b.status == Pending then Outcome(st.(bookings := st.bookings[bookingId := AsCanceled(b)]), Ok(0.0))
      else if b.user !in st.users then Outcome(st, Err(NullReadId))
      else
        var refund := Refund(b.status, b.paymentDetails.amount);
        var user := st.users[b.user];
        Outcome(st.(bookings := st.bookings[bookingId := AsCanceled(b)],
                    tickets := st.tickets[b.ticket := Restocked(st.tickets[b.ticket], b.quantity)],
                    users := st.users[b.user := user.(balance := user.balance + refund)]),
                Ok(refund))
  }

  // ---------------------------------------------------------------------
  // The expiry sweepers

  /** Five minutes, in milliseconds. */
  const GracePeriod: int := 5 * 60 * 1000

  function Cutoff(now: Time): Time
  {
    now - GracePeriod
  }

  /** Matched by the first sweeper. */
  predicate PendingStale(b: Booking, cutoff: Time)
  {
    b.status == Pending && b.bookingTime < cutoff
  }

  /** Matched by the second sweeper. */
  predicate Stale(b: Booking, cutoff: Time)
  {
    (b.status == Pending || b.status == Paid) && b.bookingTime < cutoff
  }

  /** The first sweeper after it has visited the ids below `n`, in order:
      each stale pending booking becomes canceled. */
  function PendingSwept(bs: map<BookingId, Booking>, cutoff: Time, n: nat): (r: map<BookingId, Booking>)
    ensures r.Keys == bs.Keys
  {
    if n == 0 then bs
    else
      var prev := PendingSwept(bs, cutoff, n - 1);
      if n - 1 in prev && PendingStale(prev[n - 1], cutoff) then prev[n - 1 := AsCanceled(prev[n - 1])]
      else prev
  }

  lemma {:induction false} PendingSweptAt(bs: map<BookingId, Booking>, cutoff: Time, n: nat, id: BookingId)
    requires id in bs
    ensures PendingSwept(bs, cutoff, n)[id] ==
      if id < n && PendingStale(bs[id], cutoff) then AsCanceled(bs[id]) else bs[id]
  {
    if n > 0 {
      PendingSweptAt(bs, cutoff, n - 1, id);
      if id != n - 1 && n - 1 in bs {
        PendingSweptAt(bs, cutoff, n - 1, n - 1);
      }
    }
  }

  lemma PendingSweepIdempotent(bs: map<BookingId, Booking>, cutoff: Time, n: nat)
    ensures PendingSwept(PendingSwept(bs, cutoff, n), cutoff, n) == PendingSwept(bs, cutoff, n)
  {
    var once := PendingSwept(bs, cutoff, n);
    forall id | id in once
      ensures PendingSwept(once, cutoff, n)[id] == once[id]
    {
      PendingSweptAt(bs, cutoff, n, id);
      PendingSweptAt(once, cutoff, n, id);
    }
  }

  datatype SweepOutcome = SweepOutcome(store: Store, completed: bool)

  /** One iteration of the second sweeper on booking `id`. A paid booking is
      refunded (user saved first) and restocked before it is canceled; a
      missing user or ticket raises a TypeError that ends the sweep, after
      the user's credit has already been saved if only the ticket is gone. */
  function StaleStep(s: Store, id: BookingId, cutoff: Time): (r: SweepOutcome)
    ensures r.store.bookings.Keys == s.bookings.Keys && r.store.tickets.Keys == s.tickets.Keys
    ensures r.store.users.Keys == s.users.Keys && r.store.nextId == s.nextId
    // the iteration throws exactly on a paid stale booking whose user or ticket is gone
    ensures r.completed <==>
      (id in s.bookings && RefundNeeds(s, cutoff, id) ==>
         s.bookings[id].user in s.users && s.bookings[id].ticket in s.tickets)
  {
    if id !in s.bookings || !Stale(s.bookings[id], cutoff) then SweepOutcome(s, true)
    else
      var b := s.bookings[id];
      if b.status == Paid then
        if b.user !in s.users then SweepOutcome(s, false)
        else
          var user := s.users[b.user];
          var credited := s.(users := s.users[b.user := user.(balance := user.balance + b.paymentDetails.amount)]);
          if b.ticket !in s.tickets then SweepOutcome(credited, false)
          else
            SweepOutcome(credited.(tickets := s.tickets[b.ticket := Restocked(s.tickets[b.ticket], b.quantity)],
                                   bookings := s.bookings[id := AsCanceled(b)]), true)
      else SweepOutcome(s.(bookings := s.bookings[id := AsCanceled(b)]), true)
  }

  /** What an iteration does: a booking that is not stale is left alone; a
      stale pending one is canceled; a paid one is credited to its user,
      whose save comes first, and then either restocked and canceled or,
      when the ticket is gone, left paid. */
  lemma StaleStepEffect(s: Store, id: BookingId, cutoff: Time)
    ensures id !in s.bookings || !Stale(s.bookings[id], cutoff) ==> StaleStep(s, id, cutoff).store == s
    ensures id in s.bookings && Stale(s.bookings[id], cutoff) ==>
      var b, r := s.bookings[id], StaleStep(s, id, cutoff);
      (b.status == Pending ==> r.store == s.(bookings := s.bookings[id := AsCanceled(b)]))
      && (b.status == Paid && b.user !in s.users ==> r.store == s)
      && (b.status == Paid && b.user in s.users ==>
            r.store.users == s.users[b.user := s.users[b.user].(balance := s.users[b.user].balance + b.paymentDetails.amount)]
            && (b.ticket !in s.tickets ==> r.store.bookings == s.bookings && r.store.tickets == s.tickets)
            && (b.ticket in s.tickets ==>
                  r.store.bookings == s.bookings[id := AsCanceled(b)]
                  && r.store.tickets == s.tickets[b.ticket := Restocked(s.tickets[b.ticket], b.quantity)]))
  {
  }

  /** On a stale booking that `cancelBooking` would accept, an iteration of
      the second sweeper has exactly the effect of that cancellation. The
      two differ elsewhere: the sweeper cancels a stale pending booking whose
      ticket is gone, and it saves a refund before failing on a missing ticket. */
  lemma StaleStepIsCancel(s: Store, id: BookingId, cutoff: Time)
    requires Valid(s) && id in s.bookings && Stale(s.bookings[id], cutoff)
    requires Cancel(s, id).result.Ok?
    ensures StaleStep(s, id, cutoff) == SweepOutcome(Cancel(s, id).store, true)
  {
  }

  /** The second sweeper after it has visited the ids below `n`, in
      ascending order (the database does not fix the order of `find`; this
      is the order the model picks), or up to the iteration that ended it. */
  function StaleSwept(st: Store, cutoff: Time, n: nat): (r: SweepOutcome)
    ensures r.store.bookings.Keys == st.bookings.Keys && r.store.tickets.Keys == st.tickets.Keys
    ensures r.store.users.Keys == st.users.Keys && r.store.nextId == st.nextId
  {
    if n == 0 then SweepOutcome(st, true)
    else
      var prev := StaleSwept(st, cutoff, n - 1);
      if !prev.completed then prev else StaleStep(prev.store, n - 1, cutoff)
  }

  /** A sweep that ended early stays ended. */
  lemma {:induction false} StaleSweptStopped(st: Store, cutoff: Time, k: nat, n: nat)
    requires k <= n && !StaleSwept(st, cutoff, k).completed
    ensures StaleSwept(st, cutoff, n) == StaleSwept(st, cutoff, k)
  {
    if k < n {
      StaleSweptStopped(st, cutoff, k, n - 1);
    }
  }

  /** Each booking is either untouched or was stale, visited, and is now
      canceled; ids not yet visited are untouched. */
  lemma {:induction false} StaleSweptAt(st: Store, cutoff: Time, n: nat, id: BookingId)
    requires id in st.bookings
    ensures var b, b' := st.bookings[id], StaleSwept(st, cutoff, n).store.bookings[id];
      (b' == b || (id < n && Stale(b, cutoff) && b' == AsCanceled(b)))
      && (id >= n ==> b' == b)
      && (StaleSwept(st, cutoff, n).completed ==>
            b' == if id < n && Stale(b, cutoff) then AsCanceled(b) else b)
  {
    if n > 0 {
      StaleSweptAt(st, cutoff, n - 1, id);
      if n - 1 in st.bookings {
        StaleSweptAt(st, cutoff, n - 1, n - 1);
      }
    }
  }

  /** The paid stale bookings the sweep must visit with their user and ticket. */
  ghost predicate RefundNeeds(st: Store, cutoff: Time, id: BookingId)
    requires id in st.bookings
  {
    var b := st.bookings[id];
    Stale(b, cutoff) && b.status == Paid
  }

  /** Every paid stale booking below `n` has its user and its ticket. */
  ghost predicate RefundsPossible(st: Store, cutoff: Time, n: nat)
  {
    forall id :: id in st.bookings && id < n && RefundNeeds(st, cutoff, id) ==>
      st.bookings[id].user in st.users && st.bookings[id].ticket in st.tickets
  }

  lemma RefundsPossibleStep(st: Store, cutoff: Time, n: nat)
    requires n > 0
    ensures RefundsPossible(st, cutoff, n) <==>
      RefundsPossible(st, cutoff, n - 1) &&
      (n - 1 in st.bookings && RefundNeeds(st, cutoff, n - 1) ==>
         st.bookings[n - 1].user in st.users && st.bookings[n - 1].ticket in st.tickets)
  {
  }

  /** The iteration on id `n - 1` throws exactly when that booking is paid,
      stale and without its user or ticket; the earlier iterations have
      not touched it, nor any user or ticket key. */
  lemma StaleSweptCompletesStep(st: Store, cutoff: Time, n: nat)
    requires n > 0
    ensures StaleSwept(st, cutoff, n).completed <==>
      StaleSwept(st, cutoff, n - 1).completed &&
      (n - 1 in st.bookings && RefundNeeds(st, cutoff, n - 1) ==>
         st.bookings[n - 1].user in st.users && st.bookings[n - 1].ticket in st.tickets)
  {
    if n - 1 in st.bookings {
      StaleSweptAt(st, cutoff, n - 1, n - 1);
    }
  }

  /** A sweep runs to completion exactly when every paid stale booking it
      visits still has its user and its ticket. */
  lemma {:induction false} StaleSweptCompletes(st: Store, cutoff: Time, n: nat)
    ensures StaleSwept(st, cutoff, n).completed <==> RefundsPossible(st, cutoff, n)
  {
    if n > 0 {
      StaleSweptCompletes(st, cutoff, n - 1);
      StaleSweptCompletesStep(st, cutoff, n);
      RefundsPossibleStep(st, cutoff, n);
    }
  }

  /** Sum of the stored amounts of the paid stale bookings of `user` below `n`. */
  function RefundsOf(bs: map<BookingId, Booking>, user: UserId, cutoff: Time, n: nat): real
  {
    if n == 0 then 0.0
    else
      var rest := RefundsOf(bs, user, cutoff, n - 1);
      var id := n - 1;
      if id in bs && Stale(bs[id], cutoff) && bs[id].status == Paid && bs[id].user == user
      then rest + bs[id].paymentDetails.amount
      else rest
  }

  /** Sum of the quantities of the paid stale bookings of `ticket` below `n`. */
  function RestockOf(bs: map<BookingId, Booking>, ticket: TicketId, cutoff: Time, n: nat): int
  {
    if n == 0 then 0
    else
      var rest := RestockOf(bs, ticket, cutoff, n - 1);
      var id := n - 1;
      if id in bs && Stale(bs[id], cutoff) && bs[id].status == Paid && bs[id].ticket == ticket
      then rest + bs[id].quantity
      else rest
  }

  /** Some paid stale booking below `n` is on `ticket`. */
  predicate Restocks(bs: map<BookingId, Booking>, ticket: TicketId, cutoff: Time, n: nat)
  {
    n > 0 &&
    (Restocks(bs, ticket, cutoff, n - 1)
     || (n - 1 in bs && Stale(bs[n - 1], cutoff) && bs[n - 1].status == Paid && bs[n - 1].ticket == ticket))
  }

  /** The iterations below `n` have not touched booking `n` or later. */
  lemma StaleSweptUnvisited(st: Store, cutoff: Time, n: nat)
    requires n in st.bookings
    ensures StaleSwept(st, cutoff, n).store.bookings[n] == st.bookings[n]
  {
    StaleSweptAt(st, cutoff, n, n);
  }

  /** One completed step of the sweep's fold, from outcome `prev` to `next`,
      credits user `u` only for a paid stale booking of theirs. */
  lemma SweepStepRefunds(prev: SweepOutcome, id: BookingId, cutoff: Time, next: SweepOutcome, u: UserId)
    requires next == if prev.completed then StaleStep(prev.store, id, cutoff) else prev
    requires next.completed && u in prev.store.users
    ensures var s := prev.store;
      next.store.users[u] ==
        if id in s.bookings && RefundNeeds(s, cutoff, id) && s.bookings[id].user == u
        then s.users[u].(balance := s.users[u].balance + s.bookings[id].paymentDetails.amount)
        else s.users[u]
  {
  }

  /** A completed sweep credits each user the full stored amount of each of
      their paid stale bookings; nothing else in the user changes. */
  lemma {:induction false} StaleSweptRefunds(st: Store, cutoff: Time, n: nat, u: UserId)
    requires StaleSwept(st, cutoff, n).completed && u in st.users
    ensures StaleSwept(st, cutoff, n).store.users[u] ==
      st.users[u].(balance := st.users[u].balance + RefundsOf(st.bookings, u, cutoff, n))
  {
    if n > 0 {
      var prev, next := StaleSwept(st, cutoff, n - 1), StaleSwept(st, cutoff, n);
      assert prev.completed;
      StaleSweptRefunds(st, cutoff, n - 1, u);
      SweepStepRefunds(prev, n - 1, cutoff, next, u);
      if n - 1 in st.bookings {
        StaleSweptUnvisited(st, cutoff, n - 1);
      }
    }
  }

  /** One completed step of the sweep's fold, from outcome `prev` to `next`,
      restocks ticket `t` only for a paid stale booking on it. */
  lemma SweepStepRestocks(prev: SweepOutcome, id: BookingId, cutoff: Time, next: SweepOutcome, t: TicketId)
    requires next == if prev.completed then StaleStep(prev.store, id, cutoff) else prev
    requires next.completed && t in prev.store.tickets
    ensures var s := prev.store;
      next.store.tickets[t] ==
        if id in s.bookings && RefundNeeds(s, cutoff, id) && s.bookings[id].ticket == t
        then Restocked(s.tickets[t], s.bookings[id].quantity)
        else s.tickets[t]
  {
  }

  /** A completed sweep gives each ticket back the quantity of each of its
      paid stale bookings and recomputes `available` on the tickets it
      touched; nothing else in the ticket changes. */
  lemma {:induction false} StaleSweptRestocks(st: Store, cutoff: Time, n: nat, t: TicketId)
    requires StaleSwept(st, cutoff, n).completed && t in st.tickets
    ensures var q := st.tickets[t].quantity + RestockOf(st.bookings, t, cutoff, n);
      StaleSwept(st, cutoff, n).store.tickets[t] ==
        st.tickets[t].(quantity := q,
                       available := if Restocks(st.bookings, t, cutoff, n) then q > 0 else st.tickets[t].available)
  {
    if n > 0 {
      var prev, next := StaleSwept(st, cutoff, n - 1), StaleSwept(st, cutoff, n);
      assert prev.completed;
      StaleSweptRestocks(st, cutoff, n - 1, t);
      SweepStepRestocks(prev, n - 1, cutoff, next, t);
      if n - 1 in st.bookings {
        StaleSweptUnvisited(st, cutoff, n - 1);
      }
    }
  }

  /** A sweep over a store with nothing stale below `n` changes nothing. */
  lemma {:induction false} StaleSweptNothingStale(st: Store, cutoff: Time, n: nat)
    requires forall id :: id in st.bookings && id < n ==> !Stale(st.bookings[id], cutoff)
    ensures StaleSwept(st, cutoff, n) == SweepOutcome(st, true)
  {
    if n > 0 {
      StaleSweptNothingStale(st, cutoff, n - 1);
    }
  }

  /** Running the second sweeper again at the same time, after a pass that
      ran to completion, changes nothing. */
  lemma StaleSweepIdempotent(st: Store, cutoff: Time, n: nat)
    requires StaleSwept(st, cutoff, n).completed
    ensures var once := StaleSwept(st, cutoff, n).store;
      StaleSwept(once, cutoff, n) == SweepOutcome(once, true)
  {
    var once := StaleSwept(st, cutoff, n).store;
    forall id | id in once.bookings && id < n
      ensures !Stale(once.bookings[id], cutoff)
    {
      StaleSweptAt(st, cutoff, n, id);
    }
    StaleSweptNothingStale(once, cutoff, n);
  }

  /** A paid stale booking whose user is there but whose ticket is gone:
      the iteration saves the credit and then throws, so the booking stays
      paid and the next iteration on it credits the user again. */
  lemma StaleStepRepeatsRefund(s: Store, id: BookingId, cutoff: Time)
    requires id in s.bookings && RefundNeeds(s, cutoff, id)
    requires s.bookings[id].user in s.users && s.bookings[id].ticket !in s.tickets
    ensures var b := s.bookings[id];
      var once := StaleStep(s, id, cutoff);
      var twice := StaleStep(once.store, id, cutoff);
      !once.completed && !twice.completed
      && twice.store.bookings == s.bookings && twice.store.tickets == s.tickets
      && twice.store.users == s.users[b.user := s.users[b.user].(balance := s.users[b.user].balance + 2.0 * b.paymentDetails.amount)]
  {
  }

  /** Two passes of the second sweeper at the same time over a paid stale
      booking of 50 whose ticket is gone: neither completes, the booking is
      still paid, and its user, who started at 0, has been credited twice. */
  lemma StaleSweepRefundsTwice()
    ensures
      var st := Store(map[0 := Booking(1, 9, 1, Paid, PaymentDetails(50.0, Some(0)), 0, Some(0))],
                      map[], map[1 := User("dee", "dee@example.com", 0.0)], 1);
      var now := GracePeriod + 1;
      var once := StaleSwept(st, Cutoff(now), 1);
      var twice := StaleSwept(once.store, Cutoff(now), 1);
      !once.completed && !twice.completed
      && twice.store.bookings[0].status == Paid && twice.store.users[1].balance == 100.0
  {
    var st := Store(map[0 := Booking(1, 9, 1, Paid, PaymentDetails(50.0, Some(0)), 0, Some(0))],
                    map[], map[1 := User("dee", "dee@example.com", 0.0)], 1);
    var cutoff := Cutoff(GracePeriod + 1);
    StaleStepRepeatsRefund(st, 0, cutoff);
  }
}
