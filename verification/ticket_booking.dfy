/**
 * The in-memory seat inventory: `Ticket` objects, each a two-state machine
 * for one seat, and the `TicketBookingSystem` that owns a fixed array of
 * them, seat number k at index k - 1. Every method is one atomic step; the
 * lock the system takes around booking and cancelling adds nothing to a
 * sequential model. Each class is proved against the values and transitions
 * of module SeatState.
 */
module TicketBooking {
  import opened SeatState
  import opened HistoryText

  class Ticket {
    const seatNumber: int
    var isBooked: bool
    var bookedBy: Option<string>

    /** The seat this ticket stands for. */
    function State(): Seat
      reads this
    {
      Seat(seatNumber, isBooked, bookedBy)
    }

    /** A new ticket is unbooked and has no holder. */
    constructor (seatNumber: int)
      ensures State() == Seat(seatNumber, false, None)
      ensures Consistent(State())
    {
      this.seatNumber := seatNumber;
      isBooked := false;
      bookedBy := None;
    }

    /** Succeeds and records `user` only when the ticket is not booked yet. */
    method Book(user: string) returns (ok: bool)
      modifies this
      ensures Attempt(State(), ok) == SeatState.Book(old(State()), user)
      ensures Consistent(old(State())) ==> Consistent(State())
    {
      if !isBooked {
        isBooked := true;
        bookedBy := Some(user);
        return true;
      }
      return false;
    }

    /** Succeeds and clears both fields only when the ticket is booked. */
    method Cancel() returns (ok: bool)
      modifies this
      ensures Attempt(State(), ok) == SeatState.Cancel(old(State()))
      ensures Consistent(old(State())) ==> Consistent(State())
    {
      if isBooked {
        isBooked := false;
        bookedBy := None;
        return true;
      }
      return false;
    }
  }

  class TicketBookingSystem {
    const tickets: array<Ticket>

    /** The inventory the tickets hold, seat by seat. */
    ghost function Seats(): (r: seq<Seat>)
      reads tickets, tickets[..]
      ensures |r| == tickets.Length
    {
      seq(tickets.Length, i requires 0 <= i < tickets.Length reads tickets, tickets[..] => tickets[i].State())
    }

    /** No ticket object sits at two indices, so updating one leaves the others alone. */
    ghost predicate Distinct()
      reads tickets
    {
      forall i, j :: 0 <= i < j < tickets.Length ==> tickets[i] != tickets[j]
    }

    /** Seat number k at index k - 1, every ticket consistent, no ticket shared. */
    ghost predicate Valid()
      reads tickets, tickets[..]
    {
      Distinct() && WellFormed(Seats())
    }

    /** `totalTickets` fresh unbooked tickets numbered 1 to `totalTickets`. */
    constructor (totalTickets: int)
      ensures Valid()
      ensures Seats() == Initial(totalTickets)
      ensures fresh(tickets)
      ensures forall i :: 0 <= i < tickets.Length ==> fresh(tickets[i])
    {
      var n := if totalTickets < 0 then 0 else totalTickets;
      var made: seq<Ticket> := [];
      for number := 1 to n + 1
        invariant |made| == number - 1
        invariant forall k :: 0 <= k < |made| ==> fresh(made[k]) && made[k].State() == Seat(k + 1, false, None)
        invariant forall k, l :: 0 <= k < l < |made| ==> made[k] != made[l]
      {
        var ticket := new Ticket(number);
        made := made + [ticket];
      }
      tickets := new Ticket[n](i requires 0 <= i < n => made[i]);
      new;
      assert tickets[..] == made;
      assert Seats() == Initial(totalTickets);
    }

    /** Books seat `seatNumber` for `user` through that seat's ticket alone. */
    method BookTicket(seatNumber: int, user: string) returns (ok: bool)
      requires Valid()
      requires 1 <= seatNumber <= tickets.Length
      modifies tickets[seatNumber - 1]
      ensures Valid()
      ensures Outcome(Seats(), ok) == BookAt(old(Seats()), seatNumber, user)
    {
      ok := tickets[seatNumber - 1].Book(user);
      assert Seats() == BookAt(old(Seats()), seatNumber, user).seats;
    }

    /** Cancels seat `seatNumber` through that seat's ticket alone. */
    method CancelTicket(seatNumber: int) returns (ok: bool)
      requires Valid()
      requires 1 <= seatNumber <= tickets.Length
      modifies tickets[seatNumber - 1]
      ensures Valid()
      ensures Outcome(Seats(), ok) == CancelAt(old(Seats()), seatNumber)
    {
      ok := tickets[seatNumber - 1].Cancel();
      assert Seats() == CancelAt(old(Seats()), seatNumber).seats;
    }

    /**
     * One line per booked seat, in seat order, each naming the seat and its
     * holder; nothing is modified.
     */
    method GetBookingHistory() returns (history: seq<string>)
      ensures history == Report(Seats())
      ensures |history| == |BookedIndices(Seats())|
      ensures forall j :: 0 <= j < |history| ==> ParseLine(history[j]) == Some(BookedEntries(Seats())[j])
    {
      history := [];
      for i := 0 to tickets.Length
        invariant history == Report(Seats()[..i])
      {
        var ticket := tickets[i];
        if ticket.isBooked {
          history := history + [Line(Entry(ticket.seatNumber, HolderName(ticket.State())))];
        }
        assert Seats()[..i + 1][..i] == Seats()[..i];
      }
      assert Seats()[..tickets.Length] == Seats();
      HistoryLengthIsBookedCount(Seats());
    }

    /** Clears every booking at once; seat numbers stay. */
    method ResetAllBookings()
      requires Valid()
      modifies tickets[..]
      ensures Valid()
      ensures Seats() == Reset(old(Seats()))
    {
      for i := 0 to tickets.Length
        invariant Distinct()
        invariant forall k :: 0 <= k < i ==> tickets[k].State() == Seat(old(tickets[k].seatNumber), false, None)
        invariant forall k :: i <= k < tickets.Length ==> tickets[k].State() == old(tickets[k].State())
      {
        tickets[i].isBooked := false;
        tickets[i].bookedBy := None;
      }
      assert Seats() == Reset(old(Seats()));
    }
  }

  /**
   * Twenty seats; seat 5 booked by Bob, then refused to Carol, then
   * cancelled twice, leaving an empty history.
   */
  method Scenario() returns (first: bool, second: bool, third: bool, fourth: bool, history: seq<string>)
    ensures first && !second && third && !fourth
    ensures history == []
  {
    var system := new TicketBookingSystem(20);
    ghost var start := system.Seats();
    first := system.BookTicket(5, "Bob");
    second := system.BookTicket(5, "Carol");
    third := system.CancelTicket(5);
    BookThenCancelRestores(start, 5, "Bob");
    fourth := system.CancelTicket(5);
    history := system.GetBookingHistory();
    NothingBookedEmptyHistory(system.Seats());
  }
}
