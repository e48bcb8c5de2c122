/** The grid's date identifiers: ISO 8601 complete calendar dates in
    extended format, `yyyy-mm-dd` (section 4.1.2.2 of ISO 8601:2004), as
    `toISOString().slice(0, 10)` writes them and `new Date(iso)` reads them. */
module IsoDate {
  import opened Wrappers
  import opened Calendar
  import JsString

  datatype DateError =
    | Unparseable   // `new Date(iso)` is an invalid date and `toISOString` throws
    | OutOfRange    // the year has no four-digit `yyyy` form

  function Pow10(w: nat): (p: nat)
    ensures p >= 1
  {
    if w == 0 then 1 else 10 * Pow10(w - 1)
  }

  predicate IsDigit(c: char)
  {
    '0' <= c <= '9'
  }

  predicate AllDigits(s: string)
  {
    forall i :: 0 <= i < |s| ==> IsDigit(s[i])
  }

  function DigitChar(k: int): (c: char)
    requires 0 <= k <= 9
    ensures IsDigit(c)
  {
    ('0' as int + k) as char
  }

  /** The last `w` decimal digits of `n`, zero-padded on the left. */
  function Pad(n: nat, w: nat): (s: string)
    ensures |s| == w && AllDigits(s)
  {
    if w == 0 then [] else Pad(n / 10, w - 1) + [DigitChar(n % 10)]
  }

  /** The number a string of decimal digits denotes. */
  function DigitsValue(s: string): (n: nat)
    requires AllDigits(s)
    ensures n < Pow10(|s|)
  {
    if s == [] then 0
    else DigitsValue(s[..|s| - 1]) * 10 + (s[|s| - 1] as int - '0' as int)
  }

  /** Reading back a padded number gives the number, when it fits the width. */
  lemma {:induction false} DigitsValueOfPad(n: nat, w: nat)
    requires n < Pow10(w)
    ensures DigitsValue(Pad(n, w)) == n
  {
    if w > 0 {
      var s := Pad(n, w);
      assert s == Pad(n / 10, w - 1) + [DigitChar(n % 10)];
      assert s[..|s| - 1] == Pad(n / 10, w - 1);
      assert n / 10 < Pow10(w - 1);
      DigitsValueOfPad(n / 10, w - 1);
      assert DigitsValue(s) == (n / 10) * 10 + n % 10;
    }
  }

  /** Padding the value of a digit string gives the string back. */
  lemma {:induction false} PadOfDigitsValue(s: string)
    requires AllDigits(s)
    ensures Pad(DigitsValue(s), |s|) == s
  {
    if s != [] {
      var n := DigitsValue(s);
      var init := s[..|s| - 1];
      assert n / 10 == DigitsValue(init);
      PadOfDigitsValue(init);
      assert s == init + [s[|s| - 1]];
    }
  }

  /** For numbers that fit the width, string order of the padded digits is
      numeric order, and different numbers have different digits. */
  lemma {:induction false} PadOrder(a: nat, b: nat, w: nat)
    requires a < Pow10(w) && b < Pow10(w)
    ensures JsString.Less(Pad(a, w), Pad(b, w)) <==> a < b
    ensures Pad(a, w) == Pad(b, w) <==> a == b
  {
    if w == 0 {
    } else {
      PadOrder(a / 10, b / 10, w - 1);
      JsString.LessOfConcat(Pad(a / 10, w - 1), [DigitChar(a % 10)], Pad(b / 10, w - 1), [DigitChar(b % 10)]);
      if Pad(a, w) == Pad(b, w) {
        assert Pad(a, w)[w - 1] == Pad(b, w)[w - 1];
        assert Pad(a / 10, w - 1) == Pad(a, w)[..w - 1];
        assert Pad(b / 10, w - 1) == Pad(b, w)[..w - 1];
      }
    }
  }

  /** A date that has a `yyyy-mm-dd` identifier. */
  predicate InRange(d: Date)
  {
    IsValid(d) && 0 <= d.year <= 9999
  }

  /** The `yyyy-mm-dd` identifier of a date. */
  function Format(d: Date): (s: string)
    requires InRange(d)
    ensures |s| == 10 && s[4] == '-' && s[7] == '-'
  {
    Pad(d.year, 4) + ("-" + (Pad(d.month, 2) + ("-" + Pad(d.day, 2))))
  }

  /** Ten characters shaped `dddd-dd-dd`. */
  predicate IsIsoShape(s: string)
  {
    |s| == 10 && s[4] == '-' && s[7] == '-'
    && AllDigits(s[..4]) && AllDigits(s[5..7]) && AllDigits(s[8..])
  }

  /** The year, month and day fields of a `dddd-dd-dd` string. */
  function Fields(s: string): Date
    requires IsIsoShape(s)
  {
    Date(DigitsValue(s[..4]), DigitsValue(s[5..7]), DigitsValue(s[8..]))
  }

  /** `new Date(iso)` on a date-only ISO string: the calendar day it names,
      or nothing when the text is not a `yyyy-mm-dd` date of the calendar. */
  function Parse(s: string): (r: Option<Date>)
    ensures r.Some? ==> InRange(r.value)
  {
    assert Pow10(4) == 10000;
    if IsIsoShape(s) && IsValid(Fields(s)) then Some(Fields(s)) else None
  }

  lemma FormatParts(d: Date)
    requires InRange(d)
    ensures var s := Format(d);
      s[..4] == Pad(d.year, 4) && s[5..7] == Pad(d.month, 2) && s[8..] == Pad(d.day, 2)
  {
  }

  /** Reading an identifier gives back the date it was written from. */
  lemma ParseFormat(d: Date)
    requires InRange(d)
    ensures Parse(Format(d)) == Some(d)
  {
    FormatParts(d);
    DigitsValueOfPad(d.year, 4);
    DigitsValueOfPad(d.month, 2);
    DigitsValueOfPad(d.day, 2);
  }

  lemma SplitAtDashes(s: string)
    requires |s| == 10 && s[4] == '-' && s[7] == '-'
    ensures s == s[..4] + ("-" + (s[5..7] + ("-" + s[8..])))
  {
  }

  /** Every string that parses is the identifier of the date it parses to. */
  lemma FormatParse(s: string)
    requires Parse(s).Some?
    ensures InRange(Parse(s).value) && Format(Parse(s).value) == s
  {
    var d := Fields(s);
    var y, m, dd := s[..4], s[5..7], s[8..];
    assert Pow10(4) == 10000;
    PadOfDigitsValue(y);
    PadOfDigitsValue(m);
    PadOfDigitsValue(dd);
    SplitAtDashes(s);
  }

  /** The `-mm-dd` tails of two identifiers compare as (month, day) pairs. */
  lemma MonthDayOrder(ma: nat, da: nat, mb: nat, db: nat)
    requires ma < 100 && da < 100 && mb < 100 && db < 100
    ensures JsString.Less("-" + (Pad(ma, 2) + ("-" + Pad(da, 2))), "-" + (Pad(mb, 2) + ("-" + Pad(db, 2))))
      <==> ma < mb || (ma == mb && da < db)
  {
    assert Pow10(2) == 100;
    PadOrder(ma, mb, 2);
    PadOrder(da, db, 2);
    JsString.LessIrreflexive("-");
    JsString.LessOfConcat("-", Pad(ma, 2) + ("-" + Pad(da, 2)), "-", Pad(mb, 2) + ("-" + Pad(db, 2)));
    JsString.LessOfConcat(Pad(ma, 2), "-" + Pad(da, 2), Pad(mb, 2), "-" + Pad(db, 2));
    JsString.LessOfConcat("-", Pad(da, 2), "-", Pad(db, 2));
  }

  /** Different dates have different identifiers. */
  lemma FormatInjective(a: Date, b: Date)
    requires InRange(a) && InRange(b)
    ensures Format(a) == Format(b) <==> a == b
  {
    ParseFormat(a);
    ParseFormat(b);
  }

  /** The zero-padded format makes JavaScript's string `<` on identifiers
      agree with chronological order. */
  lemma FormatOrder(a: Date, b: Date)
    requires InRange(a) && InRange(b)
    ensures JsString.Less(Format(a), Format(b)) <==> Before(a, b)
  {
    var ya, yb := Pad(a.year, 4), Pad(b.year, 4);
    var ta := "-" + (Pad(a.month, 2) + ("-" + Pad(a.day, 2)));
    var tb := "-" + (Pad(b.month, 2) + ("-" + Pad(b.day, 2)));
    assert Pow10(4) == 10000;
    PadOrder(a.year, b.year, 4);
    JsString.LessOfConcat(ya, ta, yb, tb);
    MonthDayOrder(a.month, a.day, b.month, b.day);
  }

  /** `addDaysISO(iso, n)`: the identifier of the day `n` days after the
      day `iso` names. */
  function AddDaysIso(iso: string, n: int): (r: Result<string, DateError>)
    ensures r.Ok? ==> Parse(iso).Some? && Parse(r.value) == Some(AddDays(Parse(iso).value, n))
    ensures r == Err(Unparseable) <==> Parse(iso).None?
    ensures Parse(iso).Some? ==> (r.Ok? <==> InRange(AddDays(Parse(iso).value, n)))
  {
    match Parse(iso)
    case None => Err(Unparseable)
    case Some(d) =>
      var e := AddDays(d, n);
      if InRange(e) then (ParseFormat(e); Ok(Format(e))) else Err(OutOfRange)
  }

  /** Moving an identifier by zero days gives it back. */
  lemma AddDaysIsoZero(iso: string)
    requires Parse(iso).Some?
    ensures AddDaysIso(iso, 0) == Ok(iso)
  {
    FormatParse(iso);
  }

  /** `eachDay(startISO, count)`: the identifiers of `count` consecutive
      days from `startISO`. With `count == 0` nothing is computed, so even
      an unreadable start gives the empty sequence. */
  function EachDayIso(start: string, count: nat): (r: Result<seq<string>, DateError>)
    ensures r.Ok? ==> |r.value| == count
    ensures r.Err? ==> count > 0 && (r.error == Unparseable <==> Parse(start).None?)
  {
    if count == 0 then Ok([])
    else match Parse(start)
      case None => Err(Unparseable)
      case Some(d) =>
        var days := EachDay(d, count);
        if AllInRange(d, count)
        then Ok(seq(count, i requires 0 <= i < count => Format(days[i])))
        else Err(OutOfRange)
  }

  /** Every one of the `count` days from `d` has an identifier. */
  predicate AllInRange(d: Date, count: nat)
    requires IsValid(d)
  {
    forall i :: 0 <= i < count ==> InRange(AddDays(d, i))
  }

  /** `eachDay` succeeds exactly when there is nothing to compute, or the
      start is readable and every one of the `count` days has an identifier. */
  lemma EachDayIsoSucceeds(start: string, count: nat)
    ensures EachDayIso(start, count).Ok? <==>
      count == 0 || (Parse(start).Some? && AllInRange(Parse(start).value, count))
  {
  }

  /** Any readable start at least `count` years before the year 10000
      gives `count` identifiers. */
  lemma EachDayIsoSucceedsBeforeYear10000(start: string, count: nat)
    requires Parse(start).Some? && Parse(start).value.year + count <= 10000
    ensures EachDayIso(start, count).Ok?
  {
    var d := Parse(start).value;
    forall i | 0 <= i < count
      ensures InRange(AddDays(d, i))
    {
      AddDaysYearBound(d, i);
    }
    EachDayIsoSucceeds(start, count);
  }

  /** `eachDay` has `count` entries and entry `i` is `addDaysISO(start, i)`;
      it fails exactly when one of those calls fails. */
  lemma EachDayIsoEntries(start: string, count: nat)
    ensures var r := EachDayIso(start, count);
      && (r.Ok? ==> |r.value| == count && forall i :: 0 <= i < count ==> AddDaysIso(start, i) == Ok(r.value[i]))
      && (r.Err? ==> exists i :: 0 <= i < count && AddDaysIso(start, i) == Err(r.error))
  {
    var r := EachDayIso(start, count);
    if r.Err? && Parse(start).Some? {
      var d := Parse(start).value;
      var days := EachDay(d, count);
      var i :| 0 <= i < count && !InRange(AddDays(d, i));
      assert AddDaysIso(start, i) == Err(OutOfRange);
    } else if r.Err? {
      assert AddDaysIso(start, 0) == Err(Unparseable);
    }
  }

  /** The first identifier `eachDay` produces is `start` itself. */
  lemma EachDayIsoStartsAtAnchor(start: string, count: nat)
    requires EachDayIso(start, count).Ok? && count > 0
    ensures EachDayIso(start, count).value[0] == start
  {
    FormatParse(start);
  }

  /** Entry `i` of `eachDay` is the identifier of day `i` of `EachDay`,
      and reads back as that day. */
  lemma EachDayIsoAt(start: string, count: nat, i: int)
    requires EachDayIso(start, count).Ok? && 0 <= i < count
    ensures Parse(start).Some?
    ensures var day := EachDay(Parse(start).value, count)[i];
      InRange(day) && Parse(EachDayIso(start, count).value[i]) == Some(day)
  {
    ParseFormat(EachDay(Parse(start).value, count)[i]);
  }

  /** Each identifier `eachDay` produces names the calendar day after the
      one before it. */
  lemma EachDayIsoConsecutive(start: string, count: nat)
    requires EachDayIso(start, count).Ok?
    ensures var ds := EachDayIso(start, count).value;
      forall i :: 0 <= i < count - 1 ==>
        Parse(ds[i]).Some? && Parse(ds[i + 1]) == Some(Next(Parse(ds[i]).value))
  {
    if count == 0 {
      return;
    }
    var ds := EachDayIso(start, count).value;
    EachDayIsoAt(start, count, 0);
    var days := EachDay(Parse(start).value, count);
    EachDayConsecutive(Parse(start).value, count);
    forall i | 0 <= i < count - 1
      ensures Parse(ds[i]).Some? && Parse(ds[i + 1]) == Some(Next(Parse(ds[i]).value))
    {
      EachDayIsoAt(start, count, i);
      EachDayIsoAt(start, count, i + 1);
      assert days[i + 1] == Next(days[i]);
    }
  }

  /** The identifiers `eachDay` produces are in strictly increasing string
      order, so none repeats. */
  lemma EachDayIsoIncreasing(start: string, count: nat)
    requires EachDayIso(start, count).Ok?
    ensures var ds := EachDayIso(start, count).value;
      forall i, j :: 0 <= i < j < count ==> JsString.Less(ds[i], ds[j]) && ds[i] != ds[j]
  {
    if count == 0 {
      return;
    }
    var ds := EachDayIso(start, count).value;
    EachDayIsoAt(start, count, 0);
    var days := EachDay(Parse(start).value, count);
    EachDayIncreasing(Parse(start).value, count);
    forall i, j | 0 <= i < j < count
      ensures JsString.Less(ds[i], ds[j]) && ds[i] != ds[j]
    {
      EachDayIsoAt(start, count, i);
      EachDayIsoAt(start, count, j);
      FormatOrder(days[i], days[j]);
      JsString.LessIrreflexive(ds[i]);
    }
  }
}
