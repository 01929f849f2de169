# Seat reservation ticketing server: a Dafny model

The ticketing server in `Exp12/Ticketing.js` keeps a table of seats `1..SEAT_COUNT` (10) in
memory. Each seat is `available`, `locked` or `booked`:

- `tryLockSeat` locks an available seat. It records the requesting user (or null), the lock
  time, and an expiry timer.
- The timer's callback returns a seat that is still locked to `available` after
  `LOCK_DURATION_MS`.
- `tryConfirmSeat` books a locked seat and cancels its timer. It refuses only when both the
  recorded holder and the requesting user are given and they differ.
- The `/unlock/:id` handler releases a locked seat, whoever holds it, and cancels its timer.
- The `/seats` handler lists every seat's status, holder and lock time, without the timer.

The model has three modules:

- `SeatState` (`seat_state.dfy`): the seat record, the seat invariant `WellFormed`, and one
  pure function per transition (`LockSeat`, `ConfirmSeat`, `UnlockSeat`, `ExpireSeat`,
  `Project`). Each function's contract gives its guard, its effect and "failure changes
  nothing".
- `SeatRuns` (`seat_runs.dfy`): sequences of requests on one seat (`Run`), and lemmas that hold
  for every sequence. The seat invariant is kept. Booked is terminal. Of several lock attempts
  only the first can win. A late timer cannot undo a booking. Confirm enforces the holder.
- `Ticketing` (`ticketing.dfy`): class `SeatTable`. Its `seats: map<int, Seat>` field is
  updated in place by `Lock`, `Confirm`, `Unlock` and `Expire`. The constructor is the start-up loop and `View` is the listing loop.
  Each method's `ensures` states the new table as the old one with only the named seat
  replaced by the matching `SeatState` function's result. A ghost per-seat `history` and the
  invariant `Valid()` (through `TableValid`) say that each seat is exactly what its own
  requests made of a fresh seat. So the `SeatRuns` lemmas apply to every seat of the table.

Modelling choices:

- Time is a parameter `now` in place of `Date.now()`.
- The timer handle is the flag `timerPending`.
- A user id is `Option<string>`. Absent and empty ids are treated alike, following
  JavaScript truthiness (`userId || null`, and the `&&` test in the confirm guard).
- Results are the datatype `Outcome` in place of message strings and status codes. For
  unlock, `NoSuchSeat`, `NotLocked` and `Ok` stand for 404, 400 and 200. For lock and
  confirm, `Ok` is 200 and every other outcome is 400. `AlreadyLocked` carries the holder
  that the lock message names.

Where the code and the design description differ, the model follows the code:

- A seat can be locked with no holder, when the user id is absent or empty.
- Such a seat, or any seat confirmed without a user id, can be confirmed by anyone.
- Unlock checks no user at all.

## Model

| member | source | states |
|---|---|---|
| SeatState.IdsUpTo | Exp12/Ticketing.js:20-22 | the ids created at start-up are exactly 1..n |
| SeatState.NormalizeUser | Exp12/Ticketing.js:35 | the recorded holder is the user id when it is given (present and non-empty), null otherwise; it is never the empty string |
| SeatState.LockSeat | Exp12/Ticketing.js:28-62 | lock succeeds iff the seat is available; then the seat is locked by the normalised user at `now` with a pending timer; on a locked seat it reports AlreadyLocked with the holder, on a booked seat AlreadyBooked, and a failure leaves the seat unchanged; the seat invariant is kept |
| SeatState.ConfirmSeat | Exp12/Ticketing.js:67-90 | confirm succeeds iff the seat is locked and the holder is not given, or the user is not given, or they are equal; success books the seat with holder, lock time and timer cleared; a non-locked seat gives NotLocked, a locked one with a mismatched user WrongUser, both without change; the seat invariant is kept |
| SeatState.UnlockSeat | Exp12/Ticketing.js:142-150 | unlock succeeds iff the seat is locked and leaves it available with every lock field and the timer cleared; otherwise NotLocked and no change; the seat invariant is kept |
| SeatState.ExpireSeat | Exp12/Ticketing.js:39-47 | the timer callback returns a still-locked seat to available with all lock fields cleared and leaves any other seat exactly as it was; the seat invariant is kept |
| SeatState.Project | Exp12/Ticketing.js:96-106 | on a well-formed seat the listing entry loses nothing (the seat is restored from it, the timer being pending exactly when the status is locked), and an entry that is not locked shows null holder and lock time |
| SeatRuns.RunPreservesWellFormed | Exp12/Ticketing.js:10-17 | from a well-formed seat, every sequence of lock, confirm, unlock and expiry leaves it well formed: not locked means holder, lock time and timer all null, and a timer is pending exactly while locked |
| SeatRuns.BookedIsTerminal | Exp12/Ticketing.js:53-73 | no sequence of lock, confirm, unlock or expiry changes a booked seat |
| SeatRuns.ConfirmedStaysBooked | Exp12/Ticketing.js:80-89 | after a successful confirm the seat is booked after anything that follows, including a late timer |
| SeatRuns.LockRaceHasOneWinner | Exp12/Ticketing.js:32-59 | of several lock requests handled one after another on one seat, a request succeeds iff it is the first and the seat was available |
| SeatRuns.ClaimantEnforced | Exp12/Ticketing.js:76-78 | after user a locks an available seat, a different user b's confirm gets WrongUser and a's confirm books it |
| SeatRuns.LockThenExpire | Exp12/Ticketing.js:32-48 | a seat locked and then expired is back to a fresh available seat |
| Ticketing.RecordKeepsValid | Exp12/Ticketing.js:19-22 | replacing only seat `id` by its successor under one request, and recording that request in its history only, keeps the table invariant |
| Ticketing.SeatTable.constructor | Exp12/Ticketing.js:19-22 | the start-up loop creates exactly the seats 1..SEAT_COUNT, all available with no lock fields |
| Ticketing.SeatTable.Lock | Exp12/Ticketing.js:28-62 | an unknown id gives NoSuchSeat and changes nothing; otherwise the outcome and the new seat are LockSeat's and no other seat changes; the table invariant is kept |
| Ticketing.SeatTable.Confirm | Exp12/Ticketing.js:67-90 | an unknown id gives NoSuchSeat and changes nothing; otherwise the outcome and the new seat are ConfirmSeat's and no other seat changes; the table invariant is kept |
| Ticketing.SeatTable.Unlock | Exp12/Ticketing.js:138-152 | an unknown id gives NoSuchSeat (404) and changes nothing; otherwise the outcome and the new seat are UnlockSeat's and no other seat changes; the table invariant is kept |
| Ticketing.SeatTable.Expire | Exp12/Ticketing.js:39-47 | a timer that fires while pending finds its seat still locked and returns it to a fresh available seat; no other seat changes; the table invariant is kept |
| Ticketing.SeatTable.View | Exp12/Ticketing.js:96-106 | the listing has exactly the table's keys, each entry is the seat's status, holder and lock time, it determines the seat, and no entry that is not locked shows a holder or a lock time |

## Left out

- HTTP: routing, `app.listen`, JSON bodies and status codes are not modelled (Exp12/Ticketing.js:2-6, 114-132, 151, 154-156). Only the result codes are kept.
- Request parsing: reading the user id from the `x-user-id` header, the body or the query is not modelled. The user is an input. Non-string body values are not modelled.
- Seat ids are integers. The server looks up the path string as an object key. A name inherited from `Object.prototype` (such as `constructor`) passes the existence test there. Lock then gives the generic failure of line 61, and unlock gives 400 instead of 404. Neither changes a seat. The model does not cover this.
- The fallback failure of `tryLockSeat` (Exp12/Ticketing.js:61) cannot be reached with three statuses. It is not modelled.
- Timers and clocks: `setTimeout`, `clearTimeout`, `Date.now()` and the `LOCK_DURATION_MS` delay are not modelled. The model does not bound when a pending timer fires.
- Ticketing.SeatTable.Expire requires a pending timer. That is the runtime's guarantee: a cleared timer never fires, and at most one timer is live per seat. So the callback's "not locked" branch cannot be reached from the class. That branch is stated and proved on `SeatState.ExpireSeat` for every seat.
- Ticketing.SeatTable.View requires the table invariant, because it visits the ids 1..SEAT_COUNT in the order `Object.keys` gives integer keys. The constructor establishes the invariant and every method keeps it. The listing is a `map`, so the key order of the JSON text is not modelled.
- Aliasing: the success results of `tryLockSeat` and `tryConfirmSeat` carry the live seat object, and the request handlers ignore it. The model returns only the outcome.
- Message strings and `console.log` are not modelled.
- Concurrency: the server runs on a single-threaded event loop, so each handler and each timer callback runs atomically. The model treats them as sequential method calls.
- `Exp-10/employee.js` is a console menu with no seat logic, so it is not part of this model.
