/**
 * The text of the booking history: each booked seat is reported as the line
 * "Seat <number> booked by <holder>", the number written in decimal.
 * `ParseLine` reads such a line back, and the round-trip lemma shows that a
 * line carries its seat number and holder without loss.
 */
module HistoryText {
  import opened SeatState

  predicate IsDigit(c: char) {
    '0' <= c <= '9'
  }

  predicate AllDigits(s: string) {
    forall i :: 0 <= i < |s| ==> IsDigit(s[i])
  }

  function DigitChar(d: int): (c: char)
    requires 0 <= d < 10
    ensures IsDigit(c) && c as int - '0' as int == d
  {
    (d + '0' as int) as char
  }

  /** The decimal digits of n, most significant first, without leading zeros. */
  function NatText(n: nat): (s: string)
    ensures |s| > 0 && AllDigits(s)
    ensures s[0] == '0' <==> n == 0
  {
    if n < 10 then [DigitChar(n)] else NatText(n / 10) + [DigitChar(n % 10)]
  }

  /** The decimal text of n, with a leading '-' when n is negative. */
  function IntText(n: int): (s: string)
    ensures n < 0 ==> |s| > 1 && s[0] == '-' && AllDigits(s[1..]) && DigitsValue(s[1..]) == -n
    ensures n >= 0 ==> s != [] && AllDigits(s) && DigitsValue(s) == n
  {
    if n < 0 then
      DigitsValueOfNatText(-n);
      assert ("-" + NatText(-n))[1..] == NatText(-n);
      "-" + NatText(-n)
    else
      DigitsValueOfNatText(n);
      NatText(n)
  }

  /** The history line for one entry. */
  function Line(e: Entry): (s: string)
    ensures |s| == 16 + |IntText(e.seat)| + |e.user|
    ensures s[..5] == "Seat " && s[|s| - |e.user| - 11..|s| - |e.user|] == " booked by "
    ensures s[|s| - |e.user|..] == e.user
  {
    "Seat " + IntText(e.seat) + " booked by " + e.user
  }

  /** The history lines of an inventory: one line per booked seat, in order. */
  function Report(seats: seq<Seat>): (r: seq<string>)
    ensures |r| == |BookedEntries(seats)|
    ensures forall j :: 0 <= j < |r| ==> ParseLine(r[j]) == Some(BookedEntries(seats)[j])
  {
    var es := BookedEntries(seats);
    forall j | 0 <= j < |es|
      ensures ParseLine(Line(es[j])) == Some(es[j])
    {
      LineRoundTrip(es[j]);
    }
    seq(|es|, j requires 0 <= j < |es| => Line(es[j]))
  }

  // ---------------------------------------------------------------------
  // Reading a line back

  /** The value of a string of decimal digits. */
  function DigitsValue(s: string): nat
    requires AllDigits(s)
  {
    if s == [] then 0
    else DigitsValue(s[..|s| - 1]) * 10 + (s[|s| - 1] as int - '0' as int)
  }

  /** The length of the run of digits at the front of s. */
  function DigitRun(s: string): (n: nat)
    ensures n <= |s| && AllDigits(s[..n])
    ensures n < |s| ==> !IsDigit(s[n])
  {
    if s == [] || !IsDigit(s[0]) then 0
    else
      var k := DigitRun(s[1..]);
      assert s[..k + 1] == [s[0]] + s[1..][..k];
      k + 1
  }

  /**
   * A history line taken apart again, or None when s is not one. Only the
   * text `Line` writes is accepted: no leading zeros, no "-0".
   */
  function ParseLine(s: string): Option<Entry> {
    if |s| < 5 || s[..5] != "Seat " then None
    else if |s| > 5 && s[5] == '-' then
      match ParseUnsigned(s[6..])
      case Some(e) => if e.seat == 0 then None else Some(Entry(-e.seat, e.user))
      case None => None
    else ParseUnsigned(s[5..])
  }

  /** Reads "<digits> booked by <holder>", the digits without leading zeros. */
  function ParseUnsigned(u: string): Option<Entry> {
    var k := DigitRun(u);
    var rest := u[k..];
    if k == 0 || (k > 1 && u[0] == '0') || |rest| < 11 || rest[..11] != " booked by " then None
    else Some(Entry(DigitsValue(u[..k]), rest[11..]))
  }

  lemma {:induction false} DigitsValueOfNatText(n: nat)
    ensures DigitsValue(NatText(n)) == n
  {
    if n >= 10 {
      var s := NatText(n);
      assert s[..|s| - 1] == NatText(n / 10);
      DigitsValueOfNatText(n / 10);
    }
  }

  /** A digit run stops at the first character that is not a digit. */
  lemma {:induction false} DigitRunStops(d: string, t: string)
    requires AllDigits(d)
    requires t == [] || !IsDigit(t[0])
    ensures DigitRun(d + t) == |d|
  {
    if d != [] {
      assert (d + t)[1..] == d[1..] + t;
      DigitRunStops(d[1..], t);
    }
  }

  lemma ParseUnsignedRoundTrip(n: nat, user: string)
    ensures ParseUnsigned(NatText(n) + (" booked by " + user)) == Some(Entry(n, user))
  {
    var digits := NatText(n);
    var tail := " booked by " + user;
    var u := digits + tail;
    assert u == NatText(n) + " booked by " + user;
    DigitRunStops(digits, tail);
    assert u[..|digits|] == digits;
    assert u[|digits|..] == tail;
    assert tail[..11] == " booked by " && tail[11..] == user;
    DigitsValueOfNatText(n);
  }

  /** Every history line reads back as the entry it was made from. */
  lemma LineRoundTrip(e: Entry)
    ensures ParseLine(Line(e)) == Some(e)
  {
    LineText(e);
    if e.seat < 0 {
      ParseUnsignedRoundTrip(-e.seat, e.user);
      SignedLineParses(Line(e), NatText(-e.seat) + (" booked by " + e.user));
    } else {
      ParseUnsignedRoundTrip(e.seat, e.user);
      UnsignedLineParses(Line(e), NatText(e.seat) + (" booked by " + e.user));
    }
  }

  /** A line is "Seat ", an optional '-', the digits, then the holder part. */
  lemma LineText(e: Entry)
    ensures e.seat < 0 ==> Line(e) == "Seat -" + (NatText(-e.seat) + (" booked by " + e.user))
    ensures e.seat >= 0 ==> Line(e) == "Seat " + (NatText(e.seat) + (" booked by " + e.user))
  {
  }

  lemma SignedLineParses(s: string, u: string)
    requires s == "Seat -" + u
    ensures ParseLine(s) == match ParseUnsigned(u)
                            case Some(e) => if e.seat == 0 then None else Some(Entry(-e.seat, e.user))
                            case None => None
  {
    assert s[..5] == "Seat ";
    assert s[5] == '-';
    assert s[6..] == u;
  }

  lemma UnsignedLineParses(s: string, u: string)
    requires s == "Seat " + u
    requires u == [] || u[0] != '-'
    ensures ParseLine(s) == ParseUnsigned(u)
  {
    assert s[..5] == "Seat ";
    assert s[5..] == u;
  }

  /** Digits without leading zeros are the decimal text of their value. */
  lemma {:induction false} NatTextOfDigits(d: string)
    requires AllDigits(d) && d != [] && (|d| > 1 ==> d[0] != '0')
    ensures NatText(DigitsValue(d)) == d
  {
    var n := |d| - 1;
    if n > 0 {
      var front := d[..n];
      assert front[0] == d[0];
      NatTextOfDigits(front);
      var v := DigitsValue(front);
      assert NatText(v)[0] != '0';
      assert DigitsValue(d) / 10 == v && DigitsValue(d) % 10 == d[n] as int - '0' as int;
      assert d == front + [d[n]];
    } else {
      assert d == [d[0]];
    }
  }

  lemma ParseUnsignedCanonical(u: string, e: Entry)
    requires ParseUnsigned(u) == Some(e)
    ensures e.seat >= 0 && u == NatText(e.seat) + " booked by " + e.user
  {
    var k := DigitRun(u);
    var rest := u[k..];
    NatTextOfDigits(u[..k]);
    assert rest == " booked by " + rest[11..];
    assert u == u[..k] + rest;
  }

  /** The parser accepts exactly the lines `Line` writes, so a parsed line is determined by its entry. */
  lemma ParseLineCanonical(s: string, e: Entry)
    requires ParseLine(s) == Some(e)
    ensures s == Line(e)
  {
    var u := s[5..];
    assert s == "Seat " + u;
    if u != [] && u[0] == '-' {
      SignedLineCanonical(s, u[1..], e);
    } else {
      UnsignedLineParses(s, u);
      ParseUnsignedCanonical(u, e);
      LineText(e);
    }
  }

  lemma SignedLineCanonical(s: string, w: string, e: Entry)
    requires s == "Seat -" + w
    requires ParseLine(s) == Some(e)
    ensures s == Line(e)
  {
    SignedLineParses(s, w);
    var p := ParseUnsigned(w).value;
    ParseUnsignedCanonical(w, p);
    assert e == Entry(-p.seat, p.user);
    LineText(e);
  }

  /** Distinct entries give distinct lines. */
  lemma LineInjective(e1: Entry, e2: Entry)
    requires Line(e1) == Line(e2)
    ensures e1 == e2
  {
    LineRoundTrip(e1);
    LineRoundTrip(e2);
  }
}
