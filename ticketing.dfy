/**
 * The server's table of seats, updated in place by the lock, confirm and
 * unlock requests and by the expiry timers, and read by the `/seats` listing.
 */
module Ticketing {
  import opened SeatState
  import opened SeatRuns

  /**
   * The table invariant: exactly the ids 1..SEAT_COUNT are present, every
   * seat is well formed, and every seat is what its own requests made of a
   * fresh seat.
   */
  ghost predicate TableValid(seats: map<int, Seat>, history: map<int, seq<Op>>) {
    && seats.Keys == SeatIds()
    && history.Keys == SeatIds()
    && (forall k :: k in seats ==> WellFormed(seats[k]))
    && (forall k :: k in seats ==> k in history && seats[k] == Run(Fresh, history[k]))
  }

  /**
   * Applying one request to one seat, and recording it in that seat's
   * history only, keeps the table invariant.
   */
  lemma RecordKeepsValid(seats: map<int, Seat>, history: map<int, seq<Op>>, id: int, op: Op)
    requires TableValid(seats, history)
    requires id in seats
    ensures TableValid(seats[id := Next(seats[id], op)], history[id := history[id] + [op]])
  {
    RunSnoc(Fresh, history[id], op);
  }

  /** Writing back the value a map already holds leaves it unchanged. */
  lemma WriteBackUnchanged(seats: map<int, Seat>, id: int)
    requires id in seats
    ensures seats[id := seats[id]] == seats
  {
  }

  class SeatTable {
    /** The seat records, keyed by seat id. */
    var seats: map<int, Seat>
    /** Every request each seat has gone through since start-up, in order. */
    ghost var history: map<int, seq<Op>>

    ghost predicate Valid()
      reads this
    {
      TableValid(seats, history)
    }

    /** Start-up: every seat 1..SEAT_COUNT is created available. */
    constructor ()
      ensures Valid()
      ensures forall k :: k in seats ==> seats[k] == Fresh
    {
      seats := map[];
      history := map[];
      new;
      var i := 1;
      while i <= SEAT_COUNT
        invariant 1 <= i <= SEAT_COUNT + 1
        invariant seats.Keys == IdsUpTo(i - 1) && history.Keys == IdsUpTo(i - 1)
        invariant forall k :: k in seats ==> seats[k] == Fresh
        invariant forall k :: k in history ==> history[k] == []
      {
        seats := seats[i := Fresh];
        history := history[i := []];
        i := i + 1;
      }
    }

    /** Lock request (tryLockSeat). */
    method Lock(id: int, user: Option<string>, now: int) returns (r: Outcome)
      requires Valid()
      modifies this
      ensures Valid()
      ensures id !in old(seats) ==> r == NoSuchSeat && seats == old(seats) && history == old(history)
      ensures id in old(seats) ==>
        && r == LockSeat(old(seats)[id], user, now).outcome
        && seats == old(seats)[id := LockSeat(old(seats)[id], user, now).seat]
        && history == old(history)[id := old(history)[id] + [LockOp(user, now)]]
    {
      if id !in seats {
        return NoSuchSeat;
      }
      RecordKeepsValid(seats, history, id, LockOp(user, now));
      var seat := seats[id];
      if seat.status == Available {
        seat := seat.(status := Locked, lockedBy := NormalizeUser(user), lockedAt := Some(now));
        seat := seat.(timerPending := true);
        seats := seats[id := seat];
        r := Ok;
      } else if seat.status == Locked {
        r := AlreadyLocked(seat.lockedBy);
        WriteBackUnchanged(seats, id);
      } else {
        r := AlreadyBooked;
        WriteBackUnchanged(seats, id);
      }
      history := history[id := history[id] + [LockOp(user, now)]];
    }

    /** Confirm request (tryConfirmSeat). */
    method Confirm(id: int, user: Option<string>) returns (r: Outcome)
      requires Valid()
      modifies this
      ensures Valid()
      ensures id !in old(seats) ==> r == NoSuchSeat && seats == old(seats) && history == old(history)
      ensures id in old(seats) ==>
        && r == ConfirmSeat(old(seats)[id], user).outcome
        && seats == old(seats)[id := ConfirmSeat(old(seats)[id], user).seat]
        && history == old(history)[id := old(history)[id] + [ConfirmOp(user)]]
    {
      if id !in seats {
        return NoSuchSeat;
      }
      RecordKeepsValid(seats, history, id, ConfirmOp(user));
      var seat := seats[id];
      if seat.status != Locked {
        r := NotLocked;
        WriteBackUnchanged(seats, id);
      } else if ClaimantMismatch(seat.lockedBy, user) {
        r := WrongUser;
        WriteBackUnchanged(seats, id);
      } else {
        if seat.timerPending {
          seat := seat.(timerPending := false);
        }
        seat := seat.(status := Booked, lockedBy := None, lockedAt := None);
        seats := seats[id := seat];
        r := Ok;
      }
      history := history[id := history[id] + [ConfirmOp(user)]];
    }

    /** Manual unlock request (the `/unlock/:id` handler): any holder's lock is released. */
    method Unlock(id: int) returns (r: Outcome)
      requires Valid()
      modifies this
      ensures Valid()
      ensures id !in old(seats) ==> r == NoSuchSeat && seats == old(seats) && history == old(history)
      ensures id in old(seats) ==>
        && r == UnlockSeat(old(seats)[id]).outcome
        && seats == old(seats)[id := UnlockSeat(old(seats)[id]).seat]
        && history == old(history)[id := old(history)[id] + [UnlockOp]]
    {
      if id !in seats {
        return NoSuchSeat;
      }
      RecordKeepsValid(seats, history, id, UnlockOp);
      var seat := seats[id];
      if seat.status != Locked {
        r := NotLocked;
        WriteBackUnchanged(seats, id);
      } else {
        if seat.timerPending {
          seat := seat.(timerPending := false);
        }
        seat := seat.(status := Available, lockedBy := None, lockedAt := None);
        seats := seats[id := seat];
        r := Ok;
      }
      history := history[id := history[id] + [UnlockOp]];
    }

    /**
     * The expiry timer of seat `id` fires. A timer fires only while it is
     * pending: confirm and unlock clear it first. A pending timer belongs to a
     * locked seat, so the callback always finds the seat still locked and
     * returns it to available.
     */
    method Expire(id: int)
      requires Valid()
      requires id in seats && seats[id].timerPending
      modifies this
      ensures Valid()
      ensures seats == old(seats)[id := ExpireSeat(old(seats)[id])]
      ensures old(seats)[id].status == Locked && seats[id] == Fresh
      ensures history == old(history)[id := old(history)[id] + [ExpireOp]]
    {
      assert WellFormed(seats[id]);
      RecordKeepsValid(seats, history, id, ExpireOp);
      var seat := seats[id];
      if seat.status == Locked {
        seat := seat.(status := Available, lockedBy := None, lockedAt := None, timerPending := false);
        seats := seats[id := seat];
      }
      assert seats == old(seats)[id := Next(old(seats)[id], ExpireOp)];
      history := history[id := history[id] + [ExpireOp]];
    }

    /**
     * The `/seats` listing: every seat's status, holder and lock time, without
     * the timer. Integer keys are listed in ascending order, so the seats are
     * visited from 1 to SEAT_COUNT.
     */
    method View() returns (view: map<int, SeatView>)
      requires Valid()
      ensures view.Keys == seats.Keys
      ensures forall k :: k in view ==> view[k] == Project(seats[k])
      ensures forall k :: k in view ==> Restore(view[k]) == seats[k]
      ensures forall k :: k in view && view[k].status != Locked ==>
        view[k].lockedBy == None && view[k].lockedAt == None
    {
      view := map[];
      var k := 1;
      while k <= SEAT_COUNT
        invariant 1 <= k <= SEAT_COUNT + 1
        invariant view.Keys == IdsUpTo(k - 1)
        invariant forall j :: j in view ==> view[j] == Project(seats[j])
      {
        var s := seats[k];
        view := view[k := SeatView(s.status, s.lockedBy, s.lockedAt)];
        k := k + 1;
      }
    }
  }
}
