/**
 * Sequences of requests on one seat, and what holds of every such sequence:
 * the seat invariant is kept, a booked seat never changes again, at most one
 * of several lock attempts succeeds, and confirm enforces the holder.
 */
module SeatRuns {
  import opened SeatState

  /** A request on one seat, or the firing of its expiry timer. */
  datatype Op =
    | LockOp(user: Option<string>, now: int)
    | ConfirmOp(user: Option<string>)
    | UnlockOp
    | ExpireOp

  /** The seat after one request. */
  function Next(s: Seat, op: Op): Seat {
    match op
    case LockOp(user, now) => LockSeat(s, user, now).seat
    case ConfirmOp(user) => ConfirmSeat(s, user).seat
    case UnlockOp => UnlockSeat(s).seat
    case ExpireOp => ExpireSeat(s)
  }

  /** The seat after a sequence of requests, in order. */
  function Run(s: Seat, ops: seq<Op>): Seat
    decreases |ops|
  {
    if ops == [] then s else Run(Next(s, ops[0]), ops[1..])
  }

  /** Running one more request extends the run by one step. */
  lemma {:induction false} RunSnoc(s: Seat, ops: seq<Op>, op: Op)
    ensures Run(s, ops + [op]) == Next(Run(s, ops), op)
    decreases |ops|
  {
    if ops == [] {
      assert [op][1..] == [];
    } else {
      assert (ops + [op])[1..] == ops[1..] + [op];
      RunSnoc(Next(s, ops[0]), ops[1..], op);
    }
  }

  /** No sequence of requests breaks the seat invariant. */
  lemma {:induction false} RunPreservesWellFormed(s: Seat, ops: seq<Op>)
    requires WellFormed(s)
    ensures WellFormed(Run(s, ops))
    decreases |ops|
  {
    if ops != [] {
      RunPreservesWellFormed(Next(s, ops[0]), ops[1..]);
    }
  }

  /** Booked is terminal: no lock, confirm, unlock or expiry changes a booked seat. */
  lemma {:induction false} BookedIsTerminal(s: Seat, ops: seq<Op>)
    requires s.status == Booked
    ensures Run(s, ops) == s
    decreases |ops|
  {
    if ops != [] {
      BookedIsTerminal(Next(s, ops[0]), ops[1..]);
    }
  }

  /**
   * Once a confirm succeeds the seat stays booked, whatever comes after it;
   * in particular a timer that fires late leaves it booked.
   */
  lemma ConfirmedStaysBooked(s: Seat, user: Option<string>, later: seq<Op>)
    requires ConfirmSeat(s, user).outcome == Ok
    ensures Run(s, [ConfirmOp(user)] + later).status == Booked
  {
    var booked := ConfirmSeat(s, user).seat;
    assert ([ConfirmOp(user)] + later)[1..] == later;
    BookedIsTerminal(booked, later);
  }

  /** The outcomes of several lock requests on one seat, handled one after another. */
  function LockRace(s: Seat, attempts: seq<(Option<string>, int)>): seq<Outcome>
    decreases |attempts|
  {
    if attempts == [] then []
    else
      var step := LockSeat(s, attempts[0].0, attempts[0].1);
      [step.outcome] + LockRace(step.seat, attempts[1..])
  }

  /**
   * Mutual exclusion: of several lock requests on one seat, the first succeeds
   * if the seat was available and every other one fails.
   */
  lemma {:induction false} LockRaceHasOneWinner(s: Seat, attempts: seq<(Option<string>, int)>)
    ensures |LockRace(s, attempts)| == |attempts|
    ensures forall i :: 0 <= i < |attempts| ==>
      (LockRace(s, attempts)[i] == Ok <==> i == 0 && s.status == Available)
    decreases |attempts|
  {
    if attempts != [] {
      var step := LockSeat(s, attempts[0].0, attempts[0].1);
      LockRaceHasOneWinner(step.seat, attempts[1..]);
      assert step.seat.status != Available;
    }
  }

  /**
   * Claimant enforcement: after user a locks an available seat, another user b
   * cannot confirm it, and a can.
   */
  lemma ClaimantEnforced(s: Seat, a: string, b: string, now: int)
    requires s.status == Available && a != "" && b != "" && a != b
    ensures ConfirmSeat(LockSeat(s, Some(a), now).seat, Some(b)).outcome == WrongUser
    ensures ConfirmSeat(LockSeat(s, Some(a), now).seat, Some(a)) == Step(Ok, Seat(Booked, None, None, false))
  {
  }

  /**
   * Expiry: a seat locked and then left alone until its timer fires is
   * available again, with no trace of the lock.
   */
  lemma LockThenExpire(s: Seat, user: Option<string>, now: int)
    requires s.status == Available
    ensures Run(s, [LockOp(user, now), ExpireOp]) == Fresh
  {
    var locked := LockSeat(s, user, now).seat;
    assert [LockOp(user, now), ExpireOp][1..] == [ExpireOp];
    assert Run(s, [LockOp(user, now), ExpireOp]) == Run(locked, [ExpireOp]);
    assert Run(locked, [ExpireOp]) == Run(ExpireSeat(locked), []);
  }
}
