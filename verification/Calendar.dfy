/** Calendar-day arithmetic in the proleptic Gregorian calendar, as the
    grid performs it through `Date.prototype.setDate`: moving a date by a
    number of days rolls over month and year boundaries. A date is the
    (year, month, day) triple a `Date` shows; `AddDays` is the intended
    day arithmetic, independent of time zones. */
module Calendar {

  datatype Date = Date(year: int, month: int, day: int)

  predicate IsLeapYear(y: int)
  {
    y % 4 == 0 && (y % 100 != 0 || y % 400 == 0)
  }

  function DaysInMonth(y: int, m: int): int
  {
    if m == 2 then (if IsLeapYear(y) then 29 else 28)
    else if m == 4 || m == 6 || m == 9 || m == 11 then 30
    else 31
  }

  /** A real calendar day: a month from 1 to 12 and a day that month has. */
  predicate IsValid(d: Date)
  {
    1 <= d.month <= 12 && 1 <= d.day <= DaysInMonth(d.year, d.month)
  }

  /** Chronological order: `a` is an earlier day than `b`. */
  predicate Before(a: Date, b: Date)
  {
    || a.year < b.year
    || (a.year == b.year && a.month < b.month)
    || (a.year == b.year && a.month == b.month && a.day < b.day)
  }

  /** The following calendar day. */
  function Next(d: Date): (r: Date)
    requires IsValid(d)
    ensures IsValid(r) && Before(d, r)
  {
    if d.day < DaysInMonth(d.year, d.month) then Date(d.year, d.month, d.day + 1)
    else if d.month < 12 then Date(d.year, d.month + 1, 1)
    else Date(d.year + 1, 1, 1)
  }

  /** The preceding calendar day. */
  function Prev(d: Date): (r: Date)
    requires IsValid(d)
    ensures IsValid(r) && Before(r, d)
  {
    if d.day > 1 then Date(d.year, d.month, d.day - 1)
    else if d.month > 1 then Date(d.year, d.month - 1, DaysInMonth(d.year, d.month - 1))
    else Date(d.year - 1, 12, 31)
  }

  /** `Next` and `Prev` undo each other. */
  lemma NextPrevInverse(d: Date)
    requires IsValid(d)
    ensures Prev(Next(d)) == d && Next(Prev(d)) == d
  {
  }

  /** No calendar day lies strictly between a day and the next one. */
  lemma NextIsImmediate(d: Date, x: Date)
    requires IsValid(d) && IsValid(x) && Before(d, x)
    ensures x == Next(d) || Before(Next(d), x)
  {
  }

  /** `d.setDate(d.getDate() + n)`: the day `n` calendar days after `d`
      (before it when `n` is negative). */
  function AddDays(d: Date, n: int): (r: Date)
    requires IsValid(d)
    ensures IsValid(r)
    ensures n > 0 ==> Before(d, r)
    ensures n < 0 ==> Before(r, d)
    decreases if n < 0 then -n else n
  {
    if n == 0 then d
    else if n > 0 then Next(AddDays(d, n - 1))
    else Prev(AddDays(d, n + 1))
  }

  /** One more day is the next calendar day, whatever the sign of `n`. */
  lemma AddDaysSucc(d: Date, n: int)
    requires IsValid(d)
    ensures AddDays(d, n + 1) == Next(AddDays(d, n))
  {
    if n < 0 {
      NextPrevInverse(AddDays(d, n + 1));
    }
  }

  /** One day less is the previous calendar day, whatever the sign of `n`. */
  lemma AddDaysPred(d: Date, n: int)
    requires IsValid(d)
    ensures AddDays(d, n - 1) == Prev(AddDays(d, n))
  {
    AddDaysSucc(d, n - 1);
    NextPrevInverse(AddDays(d, n - 1));
  }

  /** Moving by `a` days and then by `b` days is moving by `a + b` days. */
  lemma {:induction false} AddDaysAdd(d: Date, a: int, b: int)
    requires IsValid(d)
    ensures AddDays(AddDays(d, a), b) == AddDays(d, a + b)
    decreases if b < 0 then -b else b
  {
    if b > 0 {
      AddDaysAdd(d, a, b - 1);
      AddDaysSucc(d, a + b - 1);
    } else if b < 0 {
      AddDaysAdd(d, a, b + 1);
      AddDaysPred(d, a + b + 1);
    }
  }

  lemma BeforeTransitive(a: Date, b: Date, c: Date)
    requires Before(a, b) && Before(b, c)
    ensures Before(a, c)
  {
  }

  /** Moving by more days gives a strictly later day. */
  lemma {:induction false} AddDaysIncreasing(d: Date, i: int, j: int)
    requires IsValid(d) && i < j
    ensures Before(AddDays(d, i), AddDays(d, j))
    decreases j - i
  {
    AddDaysSucc(d, j - 1);
    if i < j - 1 {
      AddDaysIncreasing(d, i, j - 1);
      BeforeTransitive(AddDays(d, i), AddDays(d, j - 1), AddDays(d, j));
    }
  }

  /** Moving forward by `n` days advances the year by at most `n`. */
  lemma {:induction false} AddDaysYearBound(d: Date, n: nat)
    requires IsValid(d)
    ensures d.year <= AddDays(d, n).year <= d.year + n
  {
    if n > 0 {
      AddDaysYearBound(d, n - 1);
    }
  }

  /** `eachDay`: the `count` consecutive days starting at `start`. */
  function EachDay(start: Date, count: nat): (r: seq<Date>)
    requires IsValid(start)
    ensures |r| == count
  {
    seq(count, i requires 0 <= i => AddDays(start, i))
  }

  /** The sequence starts at `start`, and each entry is the calendar day
      after the one before it. */
  lemma EachDayConsecutive(start: Date, count: nat)
    requires IsValid(start)
    ensures var r := EachDay(start, count);
      && (count > 0 ==> r[0] == start)
      && (forall i :: 0 <= i < count - 1 ==> r[i + 1] == Next(r[i]))
  {
  }

  /** The sequence is in strictly increasing chronological order, so no
      day occurs in it twice. */
  lemma EachDayIncreasing(start: Date, count: nat)
    requires IsValid(start)
    ensures var r := EachDay(start, count);
      && (forall i, j :: 0 <= i < j < count ==> Before(r[i], r[j]))
      && (forall i, j :: 0 <= i < j < count ==> r[i] != r[j])
  {
    var r := EachDay(start, count);
    forall i, j | 0 <= i < j < count
      ensures Before(r[i], r[j]) && r[i] != r[j]
    {
      AddDaysIncreasing(start, i, j);
    }
  }
}
