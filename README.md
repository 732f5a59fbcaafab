# Booking lifecycle engine of a ticket reservation system

This project models the core of a ticket reservation service: a store of
tickets, users and bookings, and the operations that move a booking from
`pending` to `paid` to `confirmed`, or to `canceled`. Along the way those
operations change a ticket's quantity and a user's balance. The operations are:

- reserve (`bookTicket`): validates, then revives or creates a booking;
- pay (`payForTicket`): debits the user and takes stock off the ticket;
- confirm (`confirmBooking`);
- cancel (`cancelBooking`): refunds and restocks;
- two expiry sweepers, which cancel stale bookings once a minute.

Layout, one module per file:

- `records.dfy`, module `Records`: the three record shapes, taken from the
  Mongoose schemas. Also the `(message, status)` error values that
  `ErrorHandler` carries, and the `Store` of three maps. Money is `real`
  (exact), quantities are `int` and timestamps are `int` milliseconds.
- `booking_controller.dfy`, module `BookingController`: reserve, confirm,
  cancel and the two sweepers as functions of the store. The lemmas about
  the sweepers are here too.
- `user_controller.dfy`, module `UserController`: payment as a function of
  the store.
- `lifecycle.dfy`, module `Lifecycle`: properties that relate several
  operations. These cover the status state machine, "at most one active
  booking per (user, ticket)" over any run of requests, pay-then-cancel,
  non-negative balances over runs whose reservations have non-negative
  quantities, and three concrete scenarios (stock overdrawn, the full
  lifecycle, a balance overdrawn by a negative quantity).
- `engine.dfy`, module `Engine`: class `BookingStore`. It keeps the three
  collections as `map` fields plus the id generator. Its methods update
  records in place, in the controllers' order: a loop per sweeper, the
  status saved before the ticket lookup in confirm, and in cancel the
  ticket and booking written before the user lookup of a paid booking
  (undone when that lookup fails, as the transaction is aborted) but after
  it for a confirmed one. Each method is proved to end in exactly the state
  and result that the matching function gives.

Behaviour taken from the code rather than from the intended design:

- Reservation checks stock but never takes it.
- Payment decrements stock without rechecking it, so a ticket's quantity
  can go negative. `Lifecycle.TwoPaymentsOverdrawStock` shows two
  reservations and two payments that reach quantity -1.
- Reservation never adds the booking to `ticket.bookings`. So, unless the
  list was seeded, confirm reports "Booking not found in ticket bookings" even
  though the status write to `confirmed` has already been saved.
  `Lifecycle.FullLifecycleScenario` walks through this.
- The guard at src/controllers/Booking.controller.js:235-246 reads
  `isConfirmed` from plain ids, so it never fires. It is modelled as having
  no effect.
- A booking loaded with `populate` gets a null ticket or user when that
  record is gone. Cancel, and pay, then fail with the resulting JavaScript
  TypeError: status 500, message "Cannot read properties of null ...". They
  do not take the 404 branches at src/controllers/Booking.controller.js:318-321,
  355-358 and 377-380, which a sequential run cannot reach. Either way nothing
  is written.
- The second sweeper saves each record on its own. A paid stale booking
  whose user is gone throws and ends the pass. One whose ticket is gone
  throws after the user's refund was saved. So a later pass can refund the
  same booking again. Idempotence is therefore proved for passes that
  complete, and `StaleSweptCompletes` says exactly when a pass completes.
- The reservation's quantity is not checked for sign, as in the code. A
  negative quantity gives a negative amount, which payment accepts as a
  credit and cancellation refunds as a debit, so a balance can go below
  zero: `Lifecycle.NegativeQuantityOverdrawsBalance` ends at -100.
  `Lifecycle.RunKeepsNonNegative` shows that this is the only way: with
  non-negative quantities in every reservation, balances (and prices and
  stored amounts) that start non-negative stay so under any run of requests.

## Model

| member | source | states |
|---|---|---|
| `BookingController.FindFor` | src/controllers/Booking.controller.js:50-71 | `findOne` for the pair returns a matching booking with no earlier match, or none exists below the bound |
| `BookingController.Book` | src/controllers/Booking.controller.js:22-132 | checks in order: fields, ticket, stock, user, no active booking for the pair; the error returned for each condition is stated both ways; a failure writes nothing; tickets and users never change; a success leaves one pending booking for the pair with the requested quantity, amount = price × quantity and bookingTime = now; it reuses a canceled booking of the pair exactly when one exists, otherwise it adds the record under a fresh id; every other booking is unchanged |
| `BookingController.Confirm` | src/controllers/Booking.controller.js:210-269 | a missing booking, "already confirmed" and "not paid yet" change nothing; from `paid` the `confirmed` status and confirmationTime persist whatever follows; success holds exactly when the ticket exists and lists the booking id, otherwise the error is "not found in ticket bookings" (or the null-ticket TypeError); tickets and users never change |
| `BookingController.Cancel` | src/controllers/Booking.controller.js:293-414 | failures (missing, already canceled, ticket gone, user gone when a refund is due) change nothing, and success holds exactly when none applies; the null-reference error is returned exactly when the ticket is gone, or the user is gone when a refund is due; from `pending` only the status changes and the refund is 0; from `paid` or `confirmed` the ticket gets `booking.quantity` back with `available` recomputed, and the user is credited the stored amount (paid) or 90% of it (confirmed), which is also the value returned |
| `UserController.Pay` | src/controllers/User.controller.js:44-134 | the error for each failed check (missing, canceled, already processed, ticket gone, amount ≠ price × quantity, user gone, balance < amount) is stated both ways, in order; a failure changes nothing; a success sets `paid`, paymentTime and confirmationTime to now and stores amount = price × quantity; it debits exactly the amount, leaving a balance ≥ 0; it lowers the ticket's quantity by `booking.quantity` with no stock check and sets `available = quantity > 0`; no other record changes |
| `BookingController.PendingSwept` | src/controllers/Booking.controller.js:417-431 | the first sweeper neither creates nor deletes a booking |
| `BookingController.PendingSweptAt` | src/controllers/Booking.controller.js:420-427 | the first sweeper cancels a booking exactly when it is `pending` with bookingTime strictly before the cutoff; every other booking is unchanged |
| `BookingController.PendingSweepIdempotent` | src/controllers/Booking.controller.js:417-431 | running the first sweeper again at the same time changes nothing |
| `BookingController.StaleStep` | src/controllers/Booking.controller.js:442-466 | one iteration of the second sweeper completes exactly when the booking is not a paid stale one, or has both its user and its ticket; it creates and deletes no record and keeps the id generator |
| `BookingController.StaleStepEffect` | src/controllers/Booking.controller.js:442-466 | a booking that is not stale is left alone; a stale pending one is canceled and nothing else changes; on a paid stale one the iteration writes nothing when the user is gone; otherwise it credits the user the stored amount, and then, when the ticket is gone, leaves the bookings and tickets as they were (the booking stays paid), or else restocks the ticket with `available` recomputed and cancels the booking |
| `BookingController.StaleStepIsCancel` | src/controllers/Booking.controller.js:442-466 | on a stale booking that cancel would accept, a sweeper iteration has exactly cancel's effect |
| `BookingController.StaleSwept` | src/controllers/Booking.controller.js:433-471 | the second sweeper keeps the sets of bookings, tickets and users and the id generator |
| `BookingController.StaleSweptStopped` | src/controllers/Booking.controller.js:442-469 | once an iteration throws, the pass is over and later ids are not visited |
| `BookingController.StaleSweptAt` | src/controllers/Booking.controller.js:437-464 | each booking is untouched, or was stale (`pending`/`paid`, bookingTime < cutoff) and is now canceled; unvisited ids are untouched; after a completed pass a booking is canceled exactly when it was stale |
| `BookingController.StaleSweptCompletes` | src/controllers/Booking.controller.js:443-457 | a pass completes exactly when every paid stale booking has its user and its ticket |
| `BookingController.StaleSweptRefunds` | src/controllers/Booking.controller.js:446-452 | after a completed pass each user's balance went up by the full stored amounts of their paid stale bookings, and nothing else about the user changed |
| `BookingController.StaleSweptRestocks` | src/controllers/Booking.controller.js:454-457 | after a completed pass each ticket's quantity went up by the quantities of its paid stale bookings, with `available` recomputed where one was restocked; nothing else about the ticket changed |
| `BookingController.StaleSweptNothingStale` | src/controllers/Booking.controller.js:437-440 | a pass over a store with no stale booking changes nothing |
| `BookingController.StaleSweepIdempotent` | src/controllers/Booking.controller.js:433-471 | after a completed pass, a second pass at the same time changes nothing and completes |
| `BookingController.StaleStepRepeatsRefund` | src/controllers/Booking.controller.js:446-457 | on a paid stale booking whose user is there and whose ticket is gone, two iterations both throw, the bookings and tickets are as before, and the user has been credited twice the stored amount |
| `BookingController.StaleSweepRefundsTwice` | src/controllers/Booking.controller.js:433-471 | a paid stale booking of 50 with its ticket gone: two passes at the same time both fail to complete, the booking is still paid, and the user's balance goes from 0 to 100 |
| `Lifecycle.BookKeepsUniqueActive` | src/controllers/Booking.controller.js:50-62 | reservation keeps "at most one active booking per (user, ticket)" |
| `Lifecycle.ApplyKeepsUniqueActive` | src/controllers/Booking.controller.js:50-62 | every operation and sweeper keeps that invariant |
| `Lifecycle.RunKeepsUniqueActive` | src/controllers/Booking.controller.js:50-62 | any sequence of requests from a store with the invariant keeps it |
| `Lifecycle.ApplyFollowsStateMachine` | src/models/Booking.model.js:11-15 | each request moves a booking's status only pending→paid, paid→confirmed, active→canceled or canceled→pending (or leaves it), and a new booking starts pending |
| `Lifecycle.PayThenCancelRestores` | src/controllers/User.controller.js:105-111 | paying and then canceling the same booking refunds exactly the payment; the user record is as before, and the ticket's quantity is as before, with only `available` recomputed |
| `Lifecycle.ReserveTwiceRejected` | src/controllers/Booking.controller.js:50-62 | reserving again for a pair whose reservation succeeded fails with "You have already booked this ticket" |
| `Lifecycle.TwoPaymentsOverdrawStock` | src/controllers/User.controller.js:109-111 | two reservations of the last unit both pay, and the quantity becomes -1 |
| `Lifecycle.StaleSweptKeepsNonNegative` | src/controllers/Booking.controller.js:446-457 | a pass of the second sweeper over a store with no negative balance, price, booked quantity or stored amount leaves none |
| `Lifecycle.ApplyKeepsNonNegative` | src/controllers/User.controller.js:87-111 | every request, a reservation with a non-negative quantity included, keeps balances, prices, booked quantities and stored amounts non-negative |
| `Lifecycle.RunKeepsNonNegative` | src/controllers/User.controller.js:87-111 | any sequence of requests whose reservations all have non-negative quantities keeps every balance non-negative, from a store where balances, prices, booked quantities and stored amounts are non-negative |
| `Lifecycle.NegativeQuantityOverdrawsBalance` | src/controllers/Booking.controller.js:29-40 | a user at 0 reserves -1 at price 100 and pays -100 (balance 100), reserves 1 of another ticket and pays 100 (balance 0), then cancels the first booking: the refund is -100 and the balance ends at -100 |
| `Lifecycle.FullLifecycleScenario` | src/controllers/Booking.controller.js:230-260 | price 100, stock 5, balance 500: reserve 2, pay 200, confirm (status confirmed, error "not found in ticket bookings"), cancel: refund 180, balance 480, stock 5 |
| `Engine.BookingStore.BookTicket` | src/controllers/Booking.controller.js:22-132 | the in-place reservation ends in exactly the store and result of `Book` |
| `Engine.BookingStore.PayForTicket` | src/controllers/User.controller.js:44-134 | the in-place payment ends in exactly the store and result of `Pay` |
| `Engine.BookingStore.ConfirmBooking` | src/controllers/Booking.controller.js:210-269 | the in-place confirmation, with status saved before the ticket lookup, ends in exactly the store and result of `Confirm` |
| `Engine.BookingStore.CancelBooking` | src/controllers/Booking.controller.js:293-414 | the in-place cancellation, in the controller's write order (paid: ticket, booking, then the user lookup, whose failure rolls both writes back; confirmed: user lookup, then user, ticket, booking), ends in exactly the store and refund of `Cancel` |
| `Engine.BookingStore.SweepPendingBookings` | src/controllers/Booking.controller.js:417-431 | the loop over bookings leaves the bookings of `PendingSwept` and no other change |
| `Engine.BookingStore.SweepStaleBooking` | src/controllers/Booking.controller.js:442-466 | one iteration, user saved before ticket, ends in exactly `StaleStep` |
| `Engine.BookingStore.SweepStaleBookings` | src/controllers/Booking.controller.js:433-471 | the loop, stopped by the first throw, ends in exactly `StaleSwept` over all ids |

## Left out

- HTTP plumbing is not modelled: routes, request parsing, `catchAsyncError`, JSON responses and status rendering. Only the `(message, status)` pair of an error is kept.
- Sessions, `startTransaction` and `abortTransaction` are not modelled, and neither are the session leaks on the early returns. Commit and abort are stated as "a failure changes nothing". Confirm and the sweepers run outside a transaction, so their writes persist as modelled.
- Store and infrastructure failures are not modelled: a failing save, an invalid ObjectId cast, or the generic "Failed to book ticket" 500 error.
- Request bodies missing `paymentDetails` are not modelled: the amount is a parameter. A reservation field that is missing is an `Option` that is `None`.
- `node-cron` scheduling and `Date.now()` are not modelled: `now` is a parameter. Two sweeper passes cannot overlap in the model.
- The broken `next` call in the second sweeper's catch is not modelled. The catch runs whenever an iteration throws, but `next` is not in scope there, so the call itself throws a ReferenceError. The model records only that the pass ends (`completed` false).
- The log lines are not modelled.
- Concurrency and races between parallel requests are not modelled: the model is sequential.
- The order in which `find` returns the second sweeper's bookings is not specified: the query at src/controllers/Booking.controller.js:437-440 can use the `bookingTime` or the `status` index, so a pass may visit bookings by time, or paid before pending. The model visits them in ascending id order. The order decides only which bookings an interrupted pass has already processed. `StaleSweptCompletes`, `StaleSweptRefunds`, `StaleSweptRestocks` and `StaleSweepIdempotent` describe completed passes and do not depend on it, but `StaleSweptAt` and `StaleSweptStopped` on an interrupted pass speak of the ids below the one that threw, which holds only for that order.
- The sweepers test staleness on the current record rather than on the list loaded before the loop. Each iteration touches only its own booking, so the two agree.
- IEEE-754 arithmetic is not modelled: `price * quantity` and `amount * 0.9` are exact reals, and quantities are integers.
- Read-only endpoints are not modelled: `getBookings`, `getBookingDetails`, `getUsers`, `getAllTickets` and `getAllTicketsAvailable`.
- `createTicket` and `addUser` are not modelled. Their only logic is `available = quantity > 0` and a presence check. The `BookingStore` constructor takes the initial tickets and users instead.
- The commented-out earlier `bookTicket` and `payForTicket` are not modelled.
- Uniqueness of usernames and emails is not modelled: no modelled operation creates users.
- Non-negative ticket quantity is not proved, because the code does not keep it. See `Lifecycle.TwoPaymentsOverdrawStock`.
- Lifecycle.RunKeepsNonNegative: the code does not keep balances non-negative, so the lemma assumes non-negative reservation quantities, prices, balances and stored amounts. See `Lifecycle.NegativeQuantityOverdrawsBalance`.
