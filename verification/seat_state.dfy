/**
 * The booking state of the seat inventory, as values.
 *
 * A `Seat` is what one `Ticket` object holds (its number, whether it is
 * booked and by whom); an inventory is the sequence of seats the booking
 * system owns, seat number k at index k - 1. The transitions here are the
 * specification the imperative classes in module TicketBooking are proved
 * against, and the lemmas state what the booking operations promise.
 */
module SeatState {

  datatype Option<T> = None | Some(value: T)

  /** One seat: its number, whether it is booked, and the holder's name. */
  datatype Seat = Seat(number: int, booked: bool, holder: Option<string>)

  /** The two booking fields are never set independently. */
  predicate Consistent(s: Seat) {
    s.booked <==> s.holder.Some?
  }

  /** A seat after an attempted transition, and whether the attempt succeeded. */
  datatype Attempt = Attempt(seat: Seat, ok: bool)

  /** Booking succeeds only from the unbooked state; a failed attempt changes nothing. */
  function Book(s: Seat, user: string): (r: Attempt)
    ensures r.ok <==> !s.booked
    ensures r.seat.number == s.number
    ensures r.ok ==> r.seat.booked && r.seat.holder == Some(user)
    ensures !r.ok ==> r.seat == s
    ensures Consistent(s) ==> Consistent(r.seat)
  {
    if !s.booked then Attempt(Seat(s.number, true, Some(user)), true)
    else Attempt(s, false)
  }

  /** Cancelling succeeds only from the booked state and clears both fields. */
  function Cancel(s: Seat): (r: Attempt)
    ensures r.ok <==> s.booked
    ensures r.seat.number == s.number
    ensures r.ok ==> !r.seat.booked && r.seat.holder == None
    ensures !r.ok ==> r.seat == s
    ensures Consistent(s) ==> Consistent(r.seat)
  {
    if s.booked then Attempt(Seat(s.number, false, None), true)
    else Attempt(s, false)
  }

  /** Cancelling a booking just made restores the seat exactly. */
  lemma CancelUndoesBook(s: Seat, user: string)
    requires Consistent(s) && !s.booked
    ensures Book(s, user).ok
    ensures Cancel(Book(s, user).seat) == Attempt(s, true)
  {
  }

  /** The same seat booked by several callers, one after another, in the order they got in. */
  function BookInTurn(s: Seat, users: seq<string>): (r: (Seat, seq<bool>))
    ensures |r.1| == |users|
    ensures r.0.number == s.number
    decreases |users|
  {
    if users == [] then (s, [])
    else
      var a := Book(s, users[0]);
      var rest := BookInTurn(a.seat, users[1..]);
      (rest.0, [a.ok] + rest.1)
  }

  /** Every attempt to book an already booked seat fails and leaves it as it was. */
  lemma {:induction false} BookedSeatRejectsAll(s: Seat, users: seq<string>)
    requires s.booked
    ensures BookInTurn(s, users).0 == s
    ensures forall j :: 0 <= j < |users| ==> !BookInTurn(s, users).1[j]
  {
    if users != [] {
      BookedSeatRejectsAll(s, users[1..]);
    }
  }

  /**
   * Mutual exclusion: of several callers booking one free seat, exactly the
   * first to get in succeeds, and the seat ends up held by that caller.
   */
  lemma {:induction false} OnlyFirstBookingWins(s: Seat, users: seq<string>)
    requires !s.booked && |users| > 0
    ensures BookInTurn(s, users).1[0]
    ensures forall j :: 1 <= j < |users| ==> !BookInTurn(s, users).1[j]
    ensures BookInTurn(s, users).0.booked
    ensures BookInTurn(s, users).0.holder == Some(users[0])
  {
    var a := Book(s, users[0]);
    BookedSeatRejectsAll(a.seat, users[1..]);
  }

  // ---------------------------------------------------------------------
  // The inventory

  /** Seat number k lives at index k - 1, and every seat is consistent. */
  predicate WellFormed(seats: seq<Seat>) {
    forall i :: 0 <= i < |seats| ==> seats[i].number == i + 1 && Consistent(seats[i])
  }

  /** The inventory a new booking system starts with; a negative count gives no seats. */
  function Initial(total: int): (r: seq<Seat>)
    ensures |r| == if total < 0 then 0 else total
    ensures WellFormed(r)
    ensures forall i :: 0 <= i < |r| ==> !r[i].booked
  {
    seq(if total < 0 then 0 else total, i => Seat(i + 1, false, None))
  }

  /** An inventory after an operation on it, and the operation's success flag. */
  datatype Outcome = Outcome(seats: seq<Seat>, ok: bool)

  /** Booking seat number `seat` touches that seat and no other. */
  function BookAt(seats: seq<Seat>, seat: int, user: string): (r: Outcome)
    requires 1 <= seat <= |seats|
    ensures |r.seats| == |seats|
    ensures r.ok <==> !seats[seat - 1].booked
    ensures r.seats[seat - 1] == Book(seats[seat - 1], user).seat
    ensures forall i :: 0 <= i < |seats| && i != seat - 1 ==> r.seats[i] == seats[i]
    ensures WellFormed(seats) ==> WellFormed(r.seats)
  {
    var a := Book(seats[seat - 1], user);
    Outcome(seats[seat - 1 := a.seat], a.ok)
  }

  /** Cancelling seat number `seat` touches that seat and no other. */
  function CancelAt(seats: seq<Seat>, seat: int): (r: Outcome)
    requires 1 <= seat <= |seats|
    ensures |r.seats| == |seats|
    ensures r.ok <==> seats[seat - 1].booked
    ensures r.seats[seat - 1] == Cancel(seats[seat - 1]).seat
    ensures forall i :: 0 <= i < |seats| && i != seat - 1 ==> r.seats[i] == seats[i]
    ensures WellFormed(seats) ==> WellFormed(r.seats)
  {
    var a := Cancel(seats[seat - 1]);
    Outcome(seats[seat - 1 := a.seat], a.ok)
  }

  /**
   * Round trip: booking a free seat and then cancelling it gives back the
   * inventory it started from, and a second cancel of that seat fails.
   */
  lemma BookThenCancelRestores(seats: seq<Seat>, seat: int, user: string)
    requires WellFormed(seats) && 1 <= seat <= |seats| && !seats[seat - 1].booked
    ensures BookAt(seats, seat, user).ok
    ensures CancelAt(BookAt(seats, seat, user).seats, seat) == Outcome(seats, true)
    ensures !CancelAt(seats, seat).ok
  {
    var b := BookAt(seats, seat, user);
    CancelUndoesBook(seats[seat - 1], user);
    assert b.seats[seat - 1 := seats[seat - 1]] == seats;
  }

  /** Every booking cleared; numbers stay where they are. */
  function Reset(seats: seq<Seat>): (r: seq<Seat>)
    ensures |r| == |seats|
    ensures forall i :: 0 <= i < |r| ==> !r[i].booked && r[i].number == seats[i].number
    ensures WellFormed(seats) ==> WellFormed(r)
  {
    seq(|seats|, i requires 0 <= i < |seats| => Seat(seats[i].number, false, None))
  }

  // ---------------------------------------------------------------------
  // The booking history

  /** One line of the booking history: a seat number and its holder. */
  datatype Entry = Entry(seat: int, user: string)

  /** The holder's name as the history shows it; a missing holder shows as "None". */
  function HolderName(s: Seat): string {
    match s.holder
    case Some(u) => u
    case None => "None"
  }

  /** The booked seats, in inventory order, each with its holder. */
  function BookedEntries(seats: seq<Seat>): (r: seq<Entry>)
    ensures |r| <= |seats|
  {
    if seats == [] then []
    else
      var last := seats[|seats| - 1];
      BookedEntries(seats[..|seats| - 1])
        + (if last.booked then [Entry(last.number, HolderName(last))] else [])
  }

  /** The indices of the booked seats. */
  function BookedIndices(seats: seq<Seat>): set<int> {
    set i | 0 <= i < |seats| && seats[i].booked
  }

  /** The history has exactly one entry per booked seat. */
  lemma {:induction false} HistoryLengthIsBookedCount(seats: seq<Seat>)
    ensures |BookedEntries(seats)| == |BookedIndices(seats)|
  {
    if seats != [] {
      var n := |seats| - 1;
      var prefix := seats[..n];
      HistoryLengthIsBookedCount(prefix);
      var extra: set<int> := if seats[n].booked then {n} else {};
      assert BookedIndices(seats) == BookedIndices(prefix) + extra;
      assert n !in BookedIndices(prefix);
    }
  }

  /** An entry is in the history exactly when some booked seat produces it. */
  lemma {:induction false} HistoryMembership(seats: seq<Seat>, e: Entry)
    ensures e in BookedEntries(seats) <==>
      exists i :: 0 <= i < |seats| && seats[i].booked && e == Entry(seats[i].number, HolderName(seats[i]))
  {
    if seats != [] {
      var n := |seats| - 1;
      var prefix := seats[..n];
      HistoryMembership(prefix, e);
      if e in BookedEntries(prefix) {
        var i :| 0 <= i < |prefix| && prefix[i].booked && e == Entry(prefix[i].number, HolderName(prefix[i]));
        assert seats[i] == prefix[i];
      }
      if exists i :: 0 <= i < |seats| && seats[i].booked && e == Entry(seats[i].number, HolderName(seats[i])) {
        var i :| 0 <= i < |seats| && seats[i].booked && e == Entry(seats[i].number, HolderName(seats[i]));
        if i < n {
          assert prefix[i] == seats[i];
        }
      }
    }
  }

  /**
   * In a well-formed inventory, (k, u) is reported exactly when seat k exists,
   * is booked, and is held by u.
   */
  lemma HistoryReportsHolders(seats: seq<Seat>, k: int, u: string)
    requires WellFormed(seats)
    ensures Entry(k, u) in BookedEntries(seats) <==>
      1 <= k <= |seats| && seats[k - 1].booked && seats[k - 1].holder == Some(u)
  {
    HistoryMembership(seats, Entry(k, u));
  }

  /** Every reported seat number lies within the inventory. */
  lemma HistorySeatsInRange(seats: seq<Seat>)
    requires WellFormed(seats)
    ensures forall j :: 0 <= j < |BookedEntries(seats)| ==> 1 <= BookedEntries(seats)[j].seat <= |seats|
  {
    var h := BookedEntries(seats);
    forall j | 0 <= j < |h|
      ensures 1 <= h[j].seat <= |seats|
    {
      HistoryMembership(seats, h[j]);
    }
  }

  /** Strictly increasing seat numbers. */
  predicate Ascending(es: seq<Entry>) {
    forall j, k :: 0 <= j < k < |es| ==> es[j].seat < es[k].seat
  }

  /** The history lists seats in ascending seat-number order. */
  lemma {:induction false} HistoryAscending(seats: seq<Seat>)
    requires WellFormed(seats)
    ensures Ascending(BookedEntries(seats))
  {
    if seats != [] {
      var n := |seats| - 1;
      var prefix := seats[..n];
      assert WellFormed(prefix);
      HistoryAscending(prefix);
      HistorySeatsInRange(prefix);
    }
  }

  /** A seat just booked is reported with its new holder. */
  lemma BookedSeatIsReported(seats: seq<Seat>, seat: int, user: string)
    requires WellFormed(seats) && 1 <= seat <= |seats| && BookAt(seats, seat, user).ok
    ensures Entry(seat, user) in BookedEntries(BookAt(seats, seat, user).seats)
  {
    HistoryReportsHolders(BookAt(seats, seat, user).seats, seat, user);
  }

  /** A seat just cancelled is not reported at all. */
  lemma CancelledSeatIsNotReported(seats: seq<Seat>, seat: int)
    requires WellFormed(seats) && 1 <= seat <= |seats|
    ensures forall j :: 0 <= j < |BookedEntries(CancelAt(seats, seat).seats)| ==>
      BookedEntries(CancelAt(seats, seat).seats)[j].seat != seat
  {
    var after := CancelAt(seats, seat).seats;
    var h := BookedEntries(after);
    forall j | 0 <= j < |h|
      ensures h[j].seat != seat
    {
      HistoryReportsHolders(after, h[j].seat, h[j].user);
    }
  }

  /** With nothing booked, the history is empty. */
  lemma {:induction false} NothingBookedEmptyHistory(seats: seq<Seat>)
    requires forall i :: 0 <= i < |seats| ==> !seats[i].booked
    ensures BookedEntries(seats) == []
  {
    if seats != [] {
      NothingBookedEmptyHistory(seats[..|seats| - 1]);
    }
  }
}
