/** `addDaysISO` as the code performs it with a JavaScript `Date`: the
    identifier is read as midnight UTC, the day is moved and the time set to
    midnight on the local clock, and the result is written from the UTC
    clock. The local clock runs some minutes ahead of UTC (negative west of
    Greenwich). Where daylight saving applies, the offset at the instant
    the identifier names and the offset at local midnight of the target day
    can differ, so each is a parameter. */
module LocalTime {
  import opened Wrappers
  import opened Calendar
  import opened IsoDate

  const MinutesPerDay: int := 1440

  /** A calendar day and a minute of that day. */
  datatype DateTime = DateTime(date: Date, minute: int)

  predicate IsValidOffset(offset: int)
  {
    -MinutesPerDay < offset < MinutesPerDay
  }

  /** The same instant read on a clock `delta` minutes ahead. */
  function Shift(t: DateTime, delta: int): (r: DateTime)
    requires IsValid(t.date) && 0 <= t.minute < MinutesPerDay && IsValidOffset(delta)
    ensures IsValid(r.date) && 0 <= r.minute < MinutesPerDay
  {
    var m := t.minute + delta;
    if m >= MinutesPerDay then DateTime(Next(t.date), m - MinutesPerDay)
    else if m < 0 then DateTime(Prev(t.date), m + MinutesPerDay)
    else DateTime(t.date, m)
  }

  /** `addDaysISO(iso, n)` as written. The local clock is `parseOffset`
      minutes ahead of UTC at midnight UTC of the day `iso` names, and
      `midnightOffset` minutes ahead at local midnight of the target day. */
  function AddDaysIsoAsWritten(iso: string, n: int, parseOffset: int, midnightOffset: int): (r: Result<string, DateError>)
    requires IsValidOffset(parseOffset) && IsValidOffset(midnightOffset)
    ensures r == Err(Unparseable) <==> Parse(iso).None?
    ensures r.Ok? ==> Parse(r.value).Some?
  {
    match Parse(iso)
    case None => Err(Unparseable)
    case Some(d) =>
      var local := Shift(DateTime(d, 0), parseOffset);                // new Date(iso), seen on the local clock
      var moved := AddDays(local.date, n);                            // d.setDate(d.getDate() + n)
      var written := Shift(DateTime(moved, 0), -midnightOffset).date; // setHours(0, 0, 0, 0), then toISOString()
      if InRange(written) then (ParseFormat(written); Ok(Format(written))) else Err(OutOfRange)
  }

  /** How many days the code falls behind: one when the identifier's
      instant is still the previous local day (west of UTC), plus one when
      local midnight of the target day is still the previous UTC day (east
      of UTC). */
  function Lag(parseOffset: int, midnightOffset: int): int
  {
    (if parseOffset < 0 then 1 else 0) + (if midnightOffset > 0 then 1 else 0)
  }

  /** The code computes the intended result for `n - Lag` days. */
  lemma AsWrittenLags(iso: string, n: int, parseOffset: int, midnightOffset: int)
    requires IsValidOffset(parseOffset) && IsValidOffset(midnightOffset)
    ensures AddDaysIsoAsWritten(iso, n, parseOffset, midnightOffset)
      == AddDaysIso(iso, n - Lag(parseOffset, midnightOffset))
  {
    if Parse(iso).Some? {
      var d := Parse(iso).value;
      var back := if parseOffset < 0 then -1 else 0;
      var local := Shift(DateTime(d, 0), parseOffset).date;
      assert local == AddDays(d, back);
      AddDaysAdd(d, back, n);
      var moved := AddDays(local, n);
      var written := Shift(DateTime(moved, 0), -midnightOffset).date;
      if midnightOffset > 0 {
        AddDaysPred(d, back + n);
        assert written == AddDays(d, back + n - 1);
      } else {
        assert written == AddDays(d, back + n);
      }
    }
  }

  /** At UTC the code computes the intended day. */
  lemma AsWrittenAtUtc(iso: string, n: int)
    ensures AddDaysIsoAsWritten(iso, n, 0, 0) == AddDaysIso(iso, n)
  {
  }

  /** In every other zone with a fixed offset, east or west of UTC, the
      code lands one day early: it computes the intended result for
      `n - 1` days. */
  lemma AsWrittenIsOneDayEarly(iso: string, n: int, offset: int)
    requires IsValidOffset(offset) && offset != 0
    ensures AddDaysIsoAsWritten(iso, n, offset, offset) == AddDaysIso(iso, n - 1)
  {
    AsWrittenLags(iso, n, offset, offset);
  }

  /** When the offset at local midnight crosses from UTC or west of it to
      east of it between two consecutive target days (a spring
      daylight-saving change in a zone on UTC in winter), `eachDay` as
      written gives both days the same identifier. */
  lemma AsWrittenRepeatsDay(iso: string, n: int, parseOffset: int, before: int, after: int)
    requires IsValidOffset(parseOffset) && IsValidOffset(before) && IsValidOffset(after)
    requires before <= 0 < after
    ensures AddDaysIsoAsWritten(iso, n, parseOffset, before)
      == AddDaysIsoAsWritten(iso, n + 1, parseOffset, after)
  {
    AsWrittenLags(iso, n, parseOffset, before);
    AsWrittenLags(iso, n + 1, parseOffset, after);
  }

  /** When it crosses back (the autumn change), the two consecutive
      entries are the intended days `n - 1` and `n + 1`: day `n` is
      skipped. */
  lemma AsWrittenSkipsDay(iso: string, n: int, parseOffset: int, before: int, after: int)
    requires IsValidOffset(parseOffset) && IsValidOffset(before) && IsValidOffset(after)
    requires parseOffset >= 0 && before > 0 >= after
    ensures AddDaysIsoAsWritten(iso, n, parseOffset, before) == AddDaysIso(iso, n - 1)
    ensures AddDaysIsoAsWritten(iso, n + 1, parseOffset, after) == AddDaysIso(iso, n + 1)
  {
    AsWrittenLags(iso, n, parseOffset, before);
    AsWrittenLags(iso, n + 1, parseOffset, after);
  }

  /** A date's identifier from the digits of its three fields. */
  lemma FormatOfParts(d: Date, y: string, m: string, dd: string)
    requires InRange(d) && Pad(d.year, 4) == y && Pad(d.month, 2) == m && Pad(d.day, 2) == dd
    ensures Format(d) == y + ("-" + (m + ("-" + dd)))
  {
  }

  /** The four identifiers the examples below use, spelled out. */
  lemma SpelledIdentifiers()
    ensures "2025" + ("-" + ("03" + ("-" + "09"))) == "2025-03-09"
    ensures "2025" + ("-" + ("03" + ("-" + "10"))) == "2025-03-10"
    ensures "2025" + ("-" + ("03" + ("-" + "29"))) == "2025-03-29"
    ensures "2025" + ("-" + ("03" + ("-" + "30"))) == "2025-03-30"
  {
  }

  lemma PadYear2025()
    ensures Pad(2025, 4) == "2025"
  {
    assert Pad(2, 1) == "2";
    assert Pad(20, 2) == "20";
    assert Pad(202, 3) == "202";
  }

  lemma PadMonthDay(n: nat)
    requires n == 3 || n == 9 || n == 10
    ensures Pad(n, 2) == if n == 3 then "03" else if n == 9 then "09" else "10"
  {
    assert Pad(0, 1) == "0" && Pad(1, 1) == "1";
  }

  lemma PadLateMarch(n: nat)
    requires n == 29 || n == 30
    ensures Pad(n, 2) == if n == 29 then "29" else "30"
  {
    assert Pad(2, 1) == "2" && Pad(3, 1) == "3";
  }

  lemma FormatMarch10()
    ensures InRange(Date(2025, 3, 10)) && Format(Date(2025, 3, 10)) == "2025-03-10"
  {
    PadYear2025();
    PadMonthDay(3);
    PadMonthDay(10);
    FormatOfParts(Date(2025, 3, 10), "2025", "03", "10");
    SpelledIdentifiers();
  }

  lemma FormatMarch9()
    ensures InRange(Date(2025, 3, 9)) && Format(Date(2025, 3, 9)) == "2025-03-09"
  {
    PadYear2025();
    PadMonthDay(3);
    PadMonthDay(9);
    FormatOfParts(Date(2025, 3, 9), "2025", "03", "09");
    SpelledIdentifiers();
  }

  /** Concretely: ten hours ahead of UTC, moving 2025-03-10 by zero days
      gives 2025-03-09, where the intended result is 2025-03-10 itself. */
  lemma AsWrittenCounterexample()
    ensures AddDaysIsoAsWritten("2025-03-10", 0, 600, 600) == Ok("2025-03-09")
    ensures AddDaysIso("2025-03-10", 0) == Ok("2025-03-10")
  {
    var d := Date(2025, 3, 10);
    FormatMarch10();
    FormatMarch9();
    ParseFormat(d);
    assert Prev(d) == Date(2025, 3, 9);
    AsWrittenIsOneDayEarly("2025-03-10", 0, 600);
    AddDaysIsoZero("2025-03-10");
  }

  lemma FormatMarch29()
    ensures InRange(Date(2025, 3, 29)) && Format(Date(2025, 3, 29)) == "2025-03-29"
  {
    PadYear2025();
    PadMonthDay(3);
    PadLateMarch(29);
    FormatOfParts(Date(2025, 3, 29), "2025", "03", "29");
    SpelledIdentifiers();
  }

  lemma FormatMarch30()
    ensures InRange(Date(2025, 3, 30)) && Format(Date(2025, 3, 30)) == "2025-03-30"
  {
    PadYear2025();
    PadMonthDay(3);
    PadLateMarch(30);
    FormatOfParts(Date(2025, 3, 30), "2025", "03", "30");
    SpelledIdentifiers();
  }

  /** Concretely, in a zone on UTC in winter that moves one hour ahead at
      01:00 UTC on 2025-03-30 (as Europe/London does): entries 1 and 2 of
      `eachDay("2025-03-29", 3)` are both "2025-03-30". Local midnight of
      2025-03-30 is before the change and local midnight of 2025-03-31
      after it; the identifier's own instant is before it. */
  lemma AsWrittenSpringRepeat()
    ensures AddDaysIsoAsWritten("2025-03-29", 1, 0, 0) == Ok("2025-03-30")
    ensures AddDaysIsoAsWritten("2025-03-29", 2, 0, 60) == Ok("2025-03-30")
  {
    var d := Date(2025, 3, 29);
    FormatMarch29();
    FormatMarch30();
    ParseFormat(d);
    assert AddDays(d, 1) == Date(2025, 3, 30);
    AsWrittenAtUtc("2025-03-29", 1);
    AsWrittenRepeatsDay("2025-03-29", 1, 0, 0, 60);
  }
}
