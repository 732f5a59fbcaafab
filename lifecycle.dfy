/** Properties that relate several operations: the booking state machine,
    the one-active-booking-per-pair invariant over any run of requests, the
    ledger after a payment followed by a cancellation, non-negative
    balances over runs without negative reservation quantities, and three
    concrete scenarios. */
module Lifecycle {
  import opened Records
  import opened BookingController
  import opened UserController

  /** A call into the engine: one of the four endpoints or a sweeper pass. */
  datatype Request =
    | Reserve(userId: Option<UserId>, ticketId: Option<TicketId>, quantity: Option<int>, now: Time)
    | PayFor(bookingId: BookingId, amount: real, now: Time)
    | ConfirmFor(bookingId: BookingId, now: Time)
    | CancelFor(bookingId: BookingId)
    | SweepPending(now: Time)
    | SweepStale(now: Time)

  function Apply(st: Store, rq: Request): (r: Store)
    requires Valid(st)
    ensures Valid(r)
  {
    match rq
    case Reserve(u, t, q, now) => Book(st, u, t, q, now).store
    case PayFor(id, amount, now) => Pay(st, id, amount, now).store
    case ConfirmFor(id, now) => Confirm(st, id, now).store
    case CancelFor(id) => Cancel(st, id).store
    case SweepPending(now) => st.(bookings := PendingSwept(st.bookings, Cutoff(now), st.nextId))
    case SweepStale(now) => StaleSwept(st, Cutoff(now), st.nextId).store
  }

  function Run(st: Store, rqs: seq<Request>): (r: Store)
    requires Valid(st)
    ensures Valid(r)
    decreases |rqs|
  {
    if rqs == [] then st else Run(Apply(st, rqs[0]), rqs[1..])
  }

  /** The status moves the booking state machine allows, including staying put. */
  predicate Transition(s: Status, s': Status)
  {
    s == s'
    || (s == Pending && s' == Paid)
    || (s == Paid && s' == Confirmed)
    || (IsActive(s) && s' == Canceled)
    || (s == Canceled && s' == Pending)
  }

  /** No booking becomes active and none changes its pair. */
  ghost predicate OnlyDeactivates(bs: map<BookingId, Booking>, bs': map<BookingId, Booking>)
  {
    bs'.Keys == bs.Keys &&
    forall id :: id in bs ==>
      SamePair(bs'[id], bs[id].user, bs[id].ticket) && (IsActive(bs'[id].status) ==> IsActive(bs[id].status))
  }

  lemma OnlyDeactivatesKeepsUniqueActive(bs: map<BookingId, Booking>, bs': map<BookingId, Booking>)
    requires UniqueActive(bs) && OnlyDeactivates(bs, bs')
    ensures UniqueActive(bs')
  {
  }

  /** A successful reservation adds an active booking only for a pair that
      had none. */
  lemma BookKeepsUniqueActive(st: Store, userId: Option<UserId>, ticketId: Option<TicketId>, quantity: Option<int>, now: Time)
    requires Valid(st) && UniqueActive(st.bookings)
    ensures UniqueActive(Book(st, userId, ticketId, quantity, now).store.bookings)
  {
    var r := Book(st, userId, ticketId, quantity, now);
    if r.result.Ok? {
      var id, u, t := r.result.value, userId.value, ticketId.value;
      var bs, bs' := st.bookings, r.store.bookings;
      forall i, j | i in bs' && j in bs' && i != j && IsActive(bs'[i].status) && IsActive(bs'[j].status)
        ensures bs'[i].user != bs'[j].user || bs'[i].ticket != bs'[j].ticket
      {
        if i == id || j == id {
          var other := if i == id then j else i;
          assert other in bs && bs'[other] == bs[other];
        }
      }
    }
  }

  lemma {:induction false} ApplyKeepsUniqueActive(st: Store, rq: Request)
    requires Valid(st) && UniqueActive(st.bookings)
    ensures UniqueActive(Apply(st, rq).bookings)
  {
    var bs, bs' := st.bookings, Apply(st, rq).bookings;
    match rq
    case Reserve(u, t, q, now) =>
      BookKeepsUniqueActive(st, u, t, q, now);
    case SweepPending(now) =>
      forall id | id in bs ensures bs'[id] == bs[id] || bs'[id] == AsCanceled(bs[id]) {
        PendingSweptAt(bs, Cutoff(now), st.nextId, id);
      }
      OnlyDeactivatesKeepsUniqueActive(bs, bs');
    case SweepStale(now) =>
      forall id | id in bs ensures bs'[id] == bs[id] || bs'[id] == AsCanceled(bs[id]) {
        StaleSweptAt(st, Cutoff(now), st.nextId, id);
      }
      OnlyDeactivatesKeepsUniqueActive(bs, bs');
    case _ =>
      OnlyDeactivatesKeepsUniqueActive(bs, bs');
  }

  /** From a store with at most one active booking per (user, ticket) pair,
      every run of requests keeps it that way. */
  lemma {:induction false} RunKeepsUniqueActive(st: Store, rqs: seq<Request>)
    requires Valid(st) && UniqueActive(st.bookings)
    ensures UniqueActive(Run(st, rqs).bookings)
    decreases |rqs|
  {
    if rqs != [] {
      ApplyKeepsUniqueActive(st, rqs[0]);
      RunKeepsUniqueActive(Apply(st, rqs[0]), rqs[1..]);
    }
  }

  /** Every request moves each booking along the state machine; the only
      booking that can appear is a new pending one. */
  lemma {:induction false} ApplyFollowsStateMachine(st: Store, rq: Request)
    requires Valid(st)
    ensures var bs, bs' := st.bookings, Apply(st, rq).bookings;
      (forall id :: id in bs ==> id in bs' && Transition(bs[id].status, bs'[id].status))
      && (forall id :: id in bs' && id !in bs ==> bs'[id].status == Pending)
  {
    var bs, bs' := st.bookings, Apply(st, rq).bookings;
    match rq
    case SweepPending(now) =>
      forall id | id in bs ensures id in bs' && Transition(bs[id].status, bs'[id].status) {
        PendingSweptAt(bs, Cutoff(now), st.nextId, id);
      }
    case SweepStale(now) =>
      forall id | id in bs ensures id in bs' && Transition(bs[id].status, bs'[id].status) {
        StaleSweptAt(st, Cutoff(now), st.nextId, id);
      }
    case _ =>
  }

  /** A payment followed by the cancellation of the same booking gives the
      user back exactly what was debited and the ticket exactly what was
      taken off: the user record is as before, and the ticket differs at
      most in `available`, recomputed from its quantity. */
  lemma PayThenCancelRestores(st: Store, bookingId: BookingId, amount: real, now: Time)
    requires Valid(st) && Pay(st, bookingId, amount, now).result.Ok?
    ensures bookingId in st.bookings &&
      var b := st.bookings[bookingId];
      var c := Cancel(Pay(st, bookingId, amount, now).store, bookingId);
      c.result == Ok(amount)
      && c.store.bookings[bookingId].status == Canceled
      && c.store.users == st.users
      && c.store.tickets == st.tickets[b.ticket := Restocked(st.tickets[b.ticket], 0)]
  {
    var b := st.bookings[bookingId];
    var paid := Pay(st, bookingId, amount, now).store;
    assert paid.users[b.user].balance + amount == st.users[b.user].balance;
    assert paid.users[b.user := paid.users[b.user].(balance := paid.users[b.user].balance + amount)] == st.users;
  }

  /** A second reservation for a pair whose first one succeeded is refused as
      a duplicate (unless it already fails the stock check). */
  lemma ReserveTwiceRejected(st: Store, u: UserId, t: TicketId, q: int, q': int, now: Time, now': Time)
    requires Valid(st) && Book(st, Some(u), Some(t), Some(q), now).result.Ok?
    requires q' <= st.tickets[t].quantity
    ensures Book(Book(st, Some(u), Some(t), Some(q), now).store, Some(u), Some(t), Some(q'), now').result
      == Err(AlreadyBooked)
  {
    var r := Book(st, Some(u), Some(t), Some(q), now);
    var id := r.result.value;
    assert Matches(r.store.bookings[id], u, t, true);
  }

  /** Two users reserve the last unit of one ticket (reservation checks stock
      but does not take it); both pay, and the ticket's quantity becomes
      negative: payment does not recheck stock. */
  lemma TwoPaymentsOverdrawStock()
    ensures
      var st0 := Store(map[], map[7 := Ticket("concert", 10.0, 1, true, [])],
                       map[1 := User("ann", "ann@example.com", 50.0), 2 := User("bob", "bob@example.com", 50.0)], 0);
      var st1 := Book(st0, Some(1), Some(7), Some(1), 0);
      var st2 := Book(st1.store, Some(2), Some(7), Some(1), 1);
      var st3 := Pay(st2.store, 0, 10.0, 2);
      var st4 := Pay(st3.store, 1, 10.0, 3);
      st1.result == Ok(0) && st2.result == Ok(1) && st3.result.Ok? && st4.result.Ok?
      && st4.store.tickets[7].quantity == -1 && !st4.store.tickets[7].available
  {
    var st0 := Store(map[], map[7 := Ticket("concert", 10.0, 1, true, [])],
                     map[1 := User("ann", "ann@example.com", 50.0), 2 := User("bob", "bob@example.com", 50.0)], 0);
    var st1 := Book(st0, Some(1), Some(7), Some(1), 0);
    assert st1.result == Ok(0);
    var st2 := Book(st1.store, Some(2), Some(7), Some(1), 1);
    assert !HasActive(st1.store.bookings, 2, 7);
    assert st2.result == Ok(1);
    var st3 := Pay(st2.store, 0, 10.0, 2);
    assert st3.result.Ok?;
  }

  /** Price 100, stock 5, balance 500: reserve 2, pay 200 (stock 3, balance
      300), confirm, cancel. Reservation never records the booking in
      `ticket.bookings`, so the confirmation reports that the booking is not
      among the ticket's bookings, yet its status is confirmed; the
      cancellation then refunds 90%: 180, balance 480, stock 5. */
  lemma FullLifecycleScenario()
    ensures
      var st0 := Store(map[], map[3 := Ticket("match", 100.0, 5, true, [])],
                       map[4 := User("cy", "cy@example.com", 500.0)], 0);
      var booked := Book(st0, Some(4), Some(3), Some(2), 1000);
      var paid := Pay(booked.store, 0, 200.0, 2000);
      var confirmed := Confirm(paid.store, 0, 3000);
      var canceled := Cancel(confirmed.store, 0);
      booked.result == Ok(0)
      && paid.result.Ok? && paid.store.tickets[3].quantity == 3 && paid.store.users[4].balance == 300.0
      && confirmed.result == Err(NotInTicketBookings) && confirmed.store.bookings[0].status == Confirmed
      && canceled.result == Ok(180.0)
      && canceled.store.users[4].balance == 480.0 && canceled.store.tickets[3].quantity == 5
  {
    var st0 := Store(map[], map[3 := Ticket("match", 100.0, 5, true, [])],
                     map[4 := User("cy", "cy@example.com", 500.0)], 0);
    var booked := Book(st0, Some(4), Some(3), Some(2), 1000);
    assert booked.result == Ok(0);
    var paid := Pay(booked.store, 0, 200.0, 2000);
    assert paid.result.Ok?;
  }

  // ---------------------------------------------------------------------
  // Balances

  ghost predicate BalancesNonNegative(users: map<UserId, User>)
  {
    forall u :: u in users ==> users[u].balance >= 0.0
  }

  ghost predicate PricesNonNegative(tickets: map<TicketId, Ticket>)
  {
    forall t :: t in tickets ==> tickets[t].price >= 0.0
  }

  ghost predicate AmountsNonNegative(bookings: map<BookingId, Booking>)
  {
    forall id :: id in bookings ==>
      bookings[id].quantity >= 0 && bookings[id].paymentDetails.amount >= 0.0
  }

  /** No balance, price, booked quantity or stored amount below zero. */
  ghost predicate NonNegative(st: Store)
  {
    BalancesNonNegative(st.users) && PricesNonNegative(st.tickets) && AmountsNonNegative(st.bookings)
  }

  /** A reservation whose quantity is not negative; the code does not check it. */
  predicate SignChecked(rq: Request)
  {
    rq.Reserve? && rq.quantity.Some? ==> rq.quantity.value >= 0
  }

  lemma TotalAmountNonNegative(price: real, quantity: int)
    requires price >= 0.0 && quantity >= 0
    ensures TotalAmount(price, quantity) >= 0.0
  {
  }

  lemma StaleStepKeepsNonNegative(s: Store, id: BookingId, cutoff: Time)
    requires NonNegative(s)
    ensures NonNegative(StaleStep(s, id, cutoff).store)
  {
  }

  /** One step of the sweep's fold, from outcome `prev` to `next`. */
  lemma SweepStepKeepsNonNegative(prev: SweepOutcome, id: BookingId, cutoff: Time, next: SweepOutcome)
    requires NonNegative(prev.store)
    requires next == if prev.completed then StaleStep(prev.store, id, cutoff) else prev
    ensures NonNegative(next.store)
  {
    if prev.completed {
      StaleStepKeepsNonNegative(prev.store, id, cutoff);
    }
  }

  lemma {:induction false} StaleSweptKeepsNonNegative(st: Store, cutoff: Time, n: nat)
    requires NonNegative(st)
    ensures NonNegative(StaleSwept(st, cutoff, n).store)
  {
    if n > 0 {
      StaleSweptKeepsNonNegative(st, cutoff, n - 1);
      SweepStepKeepsNonNegative(StaleSwept(st, cutoff, n - 1), n - 1, cutoff, StaleSwept(st, cutoff, n));
    }
  }

  /** Balances stay non-negative under every request, provided prices,
      balances and stored amounts start non-negative and no reservation asks
      for a negative quantity. */
  lemma {:induction false} ApplyKeepsNonNegative(st: Store, rq: Request)
    requires Valid(st) && NonNegative(st) && SignChecked(rq)
    ensures NonNegative(Apply(st, rq))
  {
    match rq
    case Reserve(u, t, q, now) =>
      var r := Book(st, u, t, q, now);
      if r.result.Ok? {
        TotalAmountNonNegative(st.tickets[t.value].price, q.value);
      }
    case PayFor(id, amount, now) =>
      var r := Pay(st, id, amount, now);
      if r.result.Ok? {
        var b := st.bookings[id];
        TotalAmountNonNegative(st.tickets[b.ticket].price, b.quantity);
      }
    case SweepStale(now) =>
      StaleSweptKeepsNonNegative(st, Cutoff(now), st.nextId);
    case SweepPending(now) =>
      var bs := st.bookings;
      forall id | id in bs
        ensures PendingSwept(bs, Cutoff(now), st.nextId)[id].paymentDetails == bs[id].paymentDetails
        ensures PendingSwept(bs, Cutoff(now), st.nextId)[id].quantity == bs[id].quantity
      {
        PendingSweptAt(bs, Cutoff(now), st.nextId, id);
      }
    case _ =>
  }

  lemma {:induction false} RunKeepsNonNegative(st: Store, rqs: seq<Request>)
    requires Valid(st) && NonNegative(st)
    requires forall i :: 0 <= i < |rqs| ==> SignChecked(rqs[i])
    ensures NonNegative(Run(st, rqs))
    decreases |rqs|
  {
    if rqs != [] {
      ApplyKeepsNonNegative(st, rqs[0]);
      RunKeepsNonNegative(Apply(st, rqs[0]), rqs[1..]);
    }
  }

  /** Without the sign check the balance goes negative: a user at 0 reserves
      -1 of a ticket priced 100 and pays -100 (balance 100), reserves and
      pays 100 for another ticket (balance 0), then cancels the first
      booking, which refunds -100 and leaves the balance at -100. */
  lemma NegativeQuantityOverdrawsBalance()
    ensures
      var st0 := Store(map[], map[1 := Ticket("opera", 100.0, 5, true, []), 2 := Ticket("ballet", 100.0, 5, true, [])],
                       map[6 := User("eve", "eve@example.com", 0.0)], 0);
      var negative := Book(st0, Some(6), Some(1), Some(-1), 0);
      var paidNegative := Pay(negative.store, 0, -100.0, 1);
      var other := Book(paidNegative.store, Some(6), Some(2), Some(1), 2);
      var paidOther := Pay(other.store, 1, 100.0, 3);
      var canceled := Cancel(paidOther.store, 0);
      negative.result == Ok(0) && paidNegative.result.Ok? && paidNegative.store.users[6].balance == 100.0
      && other.result == Ok(1) && paidOther.result.Ok? && paidOther.store.users[6].balance == 0.0
      && canceled.result == Ok(-100.0) && canceled.store.users[6].balance == -100.0
  {
    var st0 := Store(map[], map[1 := Ticket("opera", 100.0, 5, true, []), 2 := Ticket("ballet", 100.0, 5, true, [])],
                     map[6 := User("eve", "eve@example.com", 0.0)], 0);
    var negative := Book(st0, Some(6), Some(1), Some(-1), 0);
    assert negative.result == Ok(0);
    var paidNegative := Pay(negative.store, 0, -100.0, 1);
    assert paidNegative.result.Ok?;
    var other := Book(paidNegative.store, Some(6), Some(2), Some(1), 2);
    assert !HasActive(paidNegative.store.bookings, 6, 2);
    assert other.result == Ok(1);
    var paidOther := Pay(other.store, 1, 100.0, 3);
    assert paidOther.result.Ok?;
  }
}
