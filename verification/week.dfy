/** The weekly calendar strip of the to-do panel, over whole day numbers. Day 0 is
    1970-01-01, a Thursday; weekdays are numbered as `Date.prototype.getDay` numbers them,
    0 for Sunday through 6 for Saturday. */
module Week {

  const Sunday := 0
  const Monday := 1

  function Weekday(day: int): (w: int)
    ensures 0 <= w < 7
  {
    (day + 4) % 7
  }

  /** Day numbers agree with `getDay`: 1970-01-01 was a Thursday, and each next day is the
      next weekday, Saturday wrapping round to Sunday. */
  lemma WeekdayIsGetDay(day: int)
    ensures Weekday(0) == 4
    ensures Weekday(day + 1) == (Weekday(day) + 1) % 7
  {
  }

  /** The initial `currentWeekStart`: step back to Monday, or six days back from a Sunday. */
  function WeekStart(today: int): (start: int)
    ensures Weekday(start) == Monday
    ensures start <= today < start + 7
  {
    var w := Weekday(today);
    today - w + (if w == Sunday then -6 else 1)
  }

  /** The week start is the only Monday among the seven days ending with `today`. */
  lemma WeekStartUnique(today: int, d: int)
    requires d <= today < d + 7 && Weekday(d) == Monday
    ensures d == WeekStart(today)
  {
  }

  /** `getWeekDates`: the seven consecutive days from the week start. */
  method WeekDates(start: int) returns (dates: seq<int>)
    ensures |dates| == 7
    ensures forall i :: 0 <= i < 7 ==> dates[i] == start + i
  {
    dates := [];
    var i := 0;
    while i < 7
      invariant 0 <= i <= 7
      invariant |dates| == i
      invariant forall k :: 0 <= k < i ==> dates[k] == start + k
    {
      dates := dates + [start + i];
      i := i + 1;
    }
  }

  /** From a Monday the strip runs Monday to Sunday, each weekday once. */
  lemma WeekDatesWeekdays(start: int, i: nat)
    requires Weekday(start) == Monday && i < 7
    ensures Weekday(start + i) == (i + 1) % 7
  {
  }

  /** `changeWeek`: move the week start by whole weeks. */
  function ChangeWeek(start: int, weeks: int): (r: int)
    ensures Weekday(r) == Weekday(start)
    ensures r - start == 7 * weeks
  {
    start + weeks * 7
  }

  /** Moving forward and back by the same number of weeks returns to the same week, and moves
      compose. */
  lemma ChangeWeekCompose(start: int, a: int, b: int)
    ensures ChangeWeek(ChangeWeek(start, a), b) == ChangeWeek(start, a + b)
    ensures ChangeWeek(ChangeWeek(start, a), -a) == start
  {
  }
}
