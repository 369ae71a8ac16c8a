# Ticket booking: the in-memory seat inventory

A Dafny model of the seat inventory behind a small ticket booking
application. A `Ticket` is one numbered seat with two booking fields,
`isBooked` and `bookedBy`, and two guarded transitions: `Book(user)` succeeds
only on an unbooked seat and records the holder; `Cancel()` succeeds only on a
booked seat and clears both fields. Both return a success flag and change
nothing when they fail. A `TicketBookingSystem` owns a fixed array of
tickets, with seat number k at index k - 1. It books and cancels a seat by
delegating to exactly that one ticket. Its booking history walks the tickets
in order and reports each booked seat as the line
`Seat <number> booked by <holder>`.

The project has three modules:

- `SeatState` (seat_state.dfy) holds the values. A `Seat` is the state of one
  ticket. `Book`, `Cancel`, `BookAt` and `CancelAt` give the transitions on
  one seat and on the whole inventory. `BookedEntries` gives the history as
  `(seat, holder)` entries. The lemmas cover the round trip, the ordering,
  the exact contents of the history and which of several booking attempts
  wins.
- `HistoryText` (history_text.dfy) holds the text of a history line. The
  number is written in decimal. `ParseLine` reads a line back, and
  `LineRoundTrip` proves that no information is lost. `ParseLineCanonical`
  proves that the parser accepts only the text `Line` writes.
- `TicketBooking` (ticket_booking.dfy) holds the two classes, with mutable
  fields, an `array<Ticket>`, `modifies` clauses and loops with invariants.
  The `ensures` of `Ticket.Book`, `Ticket.Cancel`, the two constructors,
  `BookTicket`, `CancelTicket` and `ResetAllBookings` tie the new state and
  the result to the functions of `SeatState`. `GetBookingHistory` is tied
  to `HistoryText.Report`, and through it to `SeatState.BookedEntries`.
  `Scenario` states concrete outcomes for one run of calls.

The system's lock makes each book or cancel call atomic. In this sequential
model every method is already one atomic step, so the lock has no
counterpart. The lemma `OnlyFirstBookingWins` states what the lock
guarantees for contending callers, taken in the order they acquired it.

## Model

| member | source | states |
|---|---|---|
| `SeatState.Book` | TicketBooking.py:12-17 | booking succeeds exactly when the seat is unbooked; on success the seat is booked by `user`; on failure the seat is unchanged, even when `user` already holds it; the seat number never changes; the booked/holder invariant is preserved |
| `SeatState.Cancel` | TicketBooking.py:19-24 | cancelling succeeds exactly when the seat is booked; on success both fields are cleared; on failure nothing changes; the invariant is preserved |
| `SeatState.CancelUndoesBook` | TicketBooking.py:12-24 | on a consistent unbooked seat, booking succeeds and a cancel then restores the seat exactly |
| `SeatState.BookInTurn` | TicketBooking.py:32-40 | successive bookings of one seat, in the order the callers acquire the lock, give one flag per caller; the seat number never changes |
| `SeatState.BookedSeatRejectsAll` | TicketBooking.py:12-17 | any sequence of booking attempts on a booked seat fails every time and leaves the seat as it was |
| `SeatState.OnlyFirstBookingWins` | TicketBooking.py:32-40 | of several callers booking one free seat in turn, the first succeeds, every later one fails, and the seat ends up held by the first |
| `SeatState.Initial` | TicketBooking.py:28-29 | the starting inventory has `max(total, 0)` seats; seat i + 1 is at index i; every seat is unbooked and consistent |
| `SeatState.BookAt` | TicketBooking.py:32-40 | booking seat k changes only index k - 1, by `Book`, and keeps the length; the flag is true exactly when that seat was free; the inventory stays well formed |
| `SeatState.CancelAt` | TicketBooking.py:42-50 | cancelling seat k changes only index k - 1, by `Cancel`, and keeps the length; the flag is true exactly when that seat was booked; the inventory stays well formed |
| `SeatState.BookThenCancelRestores` | TicketBooking.py:32-50 | booking a free seat and then cancelling it returns exactly the prior inventory with both calls succeeding; a cancel on the free seat fails |
| `SeatState.Reset` | tb_withsql.py:70-73 | every seat becomes unbooked; the length and every seat number are kept; a well-formed inventory stays well formed |
| `SeatState.BookedEntries` | TicketBooking.py:52-57 | the history has no more entries than there are seats (count, order and contents are stated by the lemmas below) |
| `SeatState.HistoryLengthIsBookedCount` | TicketBooking.py:54-56 | the number of history entries equals the number of booked seats |
| `SeatState.HistoryMembership` | TicketBooking.py:54-56 | an entry is in the history if and only if some booked seat has that number and that holder |
| `SeatState.HistoryReportsHolders` | TicketBooking.py:54-56 | in a well-formed inventory, (k, u) is reported if and only if seat k exists, is booked, and is held by u |
| `SeatState.HistorySeatsInRange` | TicketBooking.py:52-57 | every reported seat number is between 1 and the number of seats |
| `SeatState.HistoryAscending` | TicketBooking.py:54-56 | the history lists seats in strictly ascending seat-number order |
| `SeatState.BookedSeatIsReported` | TicketBooking.py:32-57 | after a successful booking of seat k by u, the history contains (k, u) |
| `SeatState.CancelledSeatIsNotReported` | TicketBooking.py:42-57 | after cancelling seat k, no history entry names seat k |
| `SeatState.NothingBookedEmptyHistory` | TicketBooking.py:52-57 | with no seat booked, the history is empty |
| `HistoryText.IntText` | TicketBooking.py:56 | the seat number as text: a '-' only for a negative number, then decimal digits whose value is the number's magnitude |
| `HistoryText.Line` | TicketBooking.py:56 | a line starts with `Seat `, ends with the holder's name, and has ` booked by ` just before it; its length is fixed by the number's text and the name |
| `HistoryText.Report` | TicketBooking.py:52-57 | one line per history entry, and each line reads back as exactly its entry; the holder part comes from `SeatState.HolderName`, which shows a missing holder as `None` |
| `HistoryText.ParseLineCanonical` | TicketBooking.py:56 | a string that parses as an entry is exactly that entry's line, so `Report`'s contract fixes each line's text |
| `HistoryText.LineRoundTrip` | TicketBooking.py:56 | `ParseLine` recovers the seat number and holder from every `Seat n booked by u` line, negative numbers included |
| `HistoryText.LineInjective` | TicketBooking.py:56 | two entries with the same history line are the same entry |
| `HistoryText.DigitsValueOfNatText` | TicketBooking.py:56 | the decimal text of a seat number reads back as that number |
| `TicketBooking.Ticket.constructor` | TicketBooking.py:7-10 | a new ticket has the given seat number, is unbooked, and has no holder |
| `TicketBooking.Ticket.Book` | TicketBooking.py:12-17 | the new fields and the result are exactly `SeatState.Book` of the old fields; the invariant is preserved |
| `TicketBooking.Ticket.Cancel` | TicketBooking.py:19-24 | the new fields and the result are exactly `SeatState.Cancel` of the old fields; the invariant is preserved |
| `TicketBooking.TicketBookingSystem.constructor` | TicketBooking.py:28-29 | the system holds `max(totalTickets, 0)` distinct fresh tickets; ticket i has seat number i + 1 and is unbooked |
| `TicketBooking.TicketBookingSystem.BookTicket` | TicketBooking.py:32-40 | modifies only the ticket at index seat - 1; the new inventory and the result are `BookAt` of the old inventory, so the result is that ticket's `Book` result; validity is kept |
| `TicketBooking.TicketBookingSystem.CancelTicket` | TicketBooking.py:42-50 | modifies only the ticket at index seat - 1; the new inventory and the result are `CancelAt` of the old inventory; validity is kept |
| `TicketBooking.TicketBookingSystem.GetBookingHistory` | TicketBooking.py:52-57 | modifies nothing; returns one line per booked ticket, as many lines as there are booked tickets, in ticket order; line j reads back as the j-th booked seat and its holder |
| `TicketBooking.TicketBookingSystem.ResetAllBookings` | tb_withsql.py:70-73 | every ticket becomes unbooked with no holder; seat numbers are kept; validity is kept |
| `TicketBooking.Scenario` | TicketBooking.py:32-57 | on 20 seats: booking seat 5 for Bob succeeds; booking it for Carol fails; cancelling it succeeds, then fails; the history is then empty |

## Left out

- The tkinter front end (`TicketBookingApp`, TicketBooking.py:60-118) and the `__main__` block are not modelled: they are buttons, dialogs and message boxes.
- `threading.Lock` and the worker threads are not modelled. Each system method is one atomic sequential step, and interleavings are not modelled. `get_booking_history` does not take the lock in the source. A sequential model cannot tell the difference.
- The database-backed `TicketBookingSystem` in tb_withsql.py is left out. Its logic is SQL text run by a foreign database driver, and its check-then-update for book and cancel repeats `Ticket.book` and `Ticket.cancel`. Its `SELECT` has no `ORDER BY`, so its history order is unspecified. Only its reset statement is modelled, as `ResetAllBookings` on the in-memory system.
- `continuously_fetch_tickets` in tb_withsql.py is not modelled: it is an endless polling loop that only sleeps and prints.
- TicketBooking.TicketBookingSystem.BookTicket requires `1 <= seatNumber <= number of tickets`. In the source, `tickets[seat_number - 1]` wraps around for seat numbers from `1 - N` to 0, and raises `IndexError` above N or below `1 - N`. These calls are outside the model.
- TicketBooking.TicketBookingSystem.CancelTicket has the same seat-number precondition as `BookTicket`, for the same reason.
- TicketBooking.Ticket.Book takes the holder as a string. In the source any Python value can be passed, and `None` would break the booked/holder invariant. The front end only passes non-empty names. An empty name is accepted, as in the source: nothing there checks for it.
- A history line shows the holder exactly as given. A booked seat without a holder would show as `None`, as Python's formatting does. That state cannot occur in a valid inventory.
- The source's list of tickets is never resized or reassigned. It is modelled as a constant `array<Ticket>` whose elements are updated in place.
