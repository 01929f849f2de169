/**
 * One seat of the ticketing server and the transitions it goes through.
 *
 * A seat is `available`, `locked` (held by an optional user until it is
 * confirmed, unlocked or its timer fires) or `booked`. The functions below
 * say what each request does to ONE seat record; the class in module
 * Ticketing applies them to the table of seats in place.
 */
module SeatState {

  datatype Option<T> = None | Some(value: T)

  /** Number of seats created at start-up; ids run from 1 to SEAT_COUNT. */
  const SEAT_COUNT: nat := 10

  datatype Status = Available | Locked | Booked

  /**
   * A seat record. `timerPending` stands for the `lockTimer` handle: true while
   * an expiry timer is scheduled and has been neither cleared nor fired.
   */
  datatype Seat = Seat(status: Status, lockedBy: Option<string>, lockedAt: Option<int>, timerPending: bool)

  /** What the `/seats` listing shows of a seat: everything but the timer. */
  datatype SeatView = SeatView(status: Status, lockedBy: Option<string>, lockedAt: Option<int>)

  /** The result of a request, in place of the server's messages and status codes. */
  datatype Outcome =
    | Ok
    | NoSuchSeat
    | AlreadyLocked(holder: Option<string>)
    | AlreadyBooked
    | NotLocked
    | WrongUser

  /** The outcome of a request on one seat together with the seat afterwards. */
  datatype Step = Step(outcome: Outcome, seat: Seat)

  /** A seat as created at start-up and as left by an unlock or an expiry. */
  const Fresh: Seat := Seat(Available, None, None, false)

  /** The ids 1..n. */
  function IdsUpTo(n: nat): (ids: set<int>)
    ensures forall k :: k in ids <==> 1 <= k <= n
  {
    if n == 0 then {} else IdsUpTo(n - 1) + {n}
  }

  /** The set of valid seat ids. */
  function SeatIds(): set<int> {
    IdsUpTo(SEAT_COUNT)
  }

  /**
   * The seat invariant: the lock fields are only ever set while the seat is
   * locked, a locked seat always has its lock time and its pending timer, and
   * a stored holder is never the empty string.
   */
  predicate WellFormed(s: Seat) {
    && (s.timerPending <==> s.status == Locked)
    && (s.status != Locked ==> s.lockedBy == None && s.lockedAt == None)
    && (s.status == Locked ==> s.lockedAt.Some?)
    && s.lockedBy != Some("")
  }

  /** A user id counts as given when it is present and not empty (JavaScript truthiness). */
  predicate Given(u: Option<string>) {
    u.Some? && u.value != ""
  }

  /** The holder a lock records for a requested user id: an empty or absent id becomes null. */
  function NormalizeUser(u: Option<string>): (r: Option<string>)
    ensures Given(r) <==> r.Some?
    ensures Given(u) <==> r.Some?
    ensures r.Some? ==> r == u
  {
    if Given(u) then u else None
  }

  /** The confirm guard: both the holder and the requesting user are given, and they differ. */
  predicate ClaimantMismatch(holder: Option<string>, user: Option<string>) {
    Given(holder) && Given(user) && holder.value != user.value
  }

  /** Locking: only an available seat can be locked; it records the holder, the time and a timer. */
  function LockSeat(s: Seat, user: Option<string>, now: int): (r: Step)
    ensures r.outcome == Ok <==> s.status == Available
    ensures s.status == Locked ==> r.outcome == AlreadyLocked(s.lockedBy)
    ensures s.status == Booked ==> r.outcome == AlreadyBooked
    ensures r.outcome != Ok ==> r.seat == s
    ensures r.outcome == Ok ==>
      && r.seat.status == Locked
      && r.seat.lockedBy == NormalizeUser(user)
      && r.seat.lockedAt == Some(now)
      && r.seat.timerPending
    ensures WellFormed(s) ==> WellFormed(r.seat)
  {
    match s.status
    case Available => Step(Ok, Seat(Locked, NormalizeUser(user), Some(now), true))
    case Locked => Step(AlreadyLocked(s.lockedBy), s)
    case Booked => Step(AlreadyBooked, s)
  }

  /**
   * Confirming: a locked seat becomes booked unless both its holder and the
   * requesting user are given and differ. The timer is cancelled.
   */
  function ConfirmSeat(s: Seat, user: Option<string>): (r: Step)
    ensures r.outcome == Ok <==>
      s.status == Locked && (!Given(s.lockedBy) || !Given(user) || s.lockedBy == user)
    ensures s.status != Locked ==> r.outcome == NotLocked
    ensures s.status == Locked && r.outcome != Ok ==> r.outcome == WrongUser
    ensures r.outcome != Ok ==> r.seat == s
    ensures r.outcome == Ok ==> r.seat == Seat(Booked, None, None, false)
    ensures WellFormed(s) ==> WellFormed(r.seat)
  {
    if s.status != Locked then Step(NotLocked, s)
    else if ClaimantMismatch(s.lockedBy, user) then Step(WrongUser, s)
    else Step(Ok, Seat(Booked, None, None, false))
  }

  /** Manual unlock: a locked seat, whoever holds it, returns to available and its timer is cancelled. */
  function UnlockSeat(s: Seat): (r: Step)
    ensures r.outcome == Ok <==> s.status == Locked
    ensures r.outcome != Ok ==> r.outcome == NotLocked && r.seat == s
    ensures r.outcome == Ok ==> r.seat == Fresh
    ensures WellFormed(s) ==> WellFormed(r.seat)
  {
    if s.status != Locked then Step(NotLocked, s) else Step(Ok, Fresh)
  }

  /** The expiry timer's callback: a seat still locked returns to available; any other seat is left alone. */
  function ExpireSeat(s: Seat): (r: Seat)
    ensures s.status == Locked ==> r == Fresh
    ensures s.status != Locked ==> r == s
    ensures WellFormed(s) ==> WellFormed(r)
  {
    if s.status == Locked then Fresh else s
  }

  /**
   * The listing's projection of a seat. On a well-formed seat it loses nothing:
   * the hidden timer is pending exactly when the shown status is locked, so
   * Restore gives the seat back.
   */
  function Project(s: Seat): (v: SeatView)
    ensures WellFormed(s) ==> Restore(v) == s
    ensures WellFormed(s) && v.status != Locked ==> v.lockedBy == None && v.lockedAt == None
  {
    SeatView(s.status, s.lockedBy, s.lockedAt)
  }

  /** The seat a view stands for, under the seat invariant. */
  function Restore(v: SeatView): Seat {
    Seat(v.status, v.lockedBy, v.lockedAt, v.status == Locked)
  }
}
