/** Intersection of inclusive date ranges, decided by comparing the
    `yyyy-mm-dd` identifiers as strings. */
module Overlap {
  import opened Calendar
  import opened IsoDate
  import opened JsString

  /** `rangeOverlaps`: `[aStart, aEnd]` and `[bStart, bEnd]` share a day
      unless one of them ends before the other starts; equivalently, each
      starts no later than the other ends. */
  function RangeOverlaps(aStart: string, aEnd: string, bStart: string, bEnd: string): (r: bool)
    ensures r <==> (bStart == aEnd || Less(bStart, aEnd)) && (aStart == bEnd || Less(aStart, bEnd))
  {
    LessOrEqualIsEqualOrLess(bStart, aEnd);
    LessOrEqualIsEqualOrLess(aStart, bEnd);
    !(Less(aEnd, bStart) || Less(bEnd, aStart))
  }

  lemma OverlapSymmetric(aStart: string, aEnd: string, bStart: string, bEnd: string)
    ensures RangeOverlaps(aStart, aEnd, bStart, bEnd) == RangeOverlaps(bStart, bEnd, aStart, aEnd)
  {
  }

  /** A non-empty range overlaps itself. */
  lemma OverlapSelf(s: string, e: string)
    requires s == e || Less(s, e)
    ensures RangeOverlaps(s, e, s, e)
  {
    LessAsymmetric(s, e);
    LessIrreflexive(s);
  }

  /** The single-day range `[d, d]` overlaps `[s, e]` exactly when
      `s <= d <= e` in string order. */
  lemma OverlapDay(s: string, e: string, d: string)
    ensures RangeOverlaps(s, e, d, d) <==> (s == d || Less(s, d)) && (d == e || Less(d, e))
  {
    LessOrEqualIsEqualOrLess(s, d);
    LessOrEqualIsEqualOrLess(d, e);
  }

  /** On identifiers, the string test is the chronological test: a day
      lies in a range exactly when it is not before its start and not after
      its end. */
  lemma OverlapDayChronological(s: Date, e: Date, x: Date)
    requires InRange(s) && InRange(e) && InRange(x)
    ensures RangeOverlaps(Format(s), Format(e), Format(x), Format(x)) <==> !Before(x, s) && !Before(e, x)
  {
    FormatOrder(e, x);
    FormatOrder(x, s);
  }

  /** Two non-empty date ranges overlap, by the string test on their
      identifiers, exactly when some day lies in both: the later of the
      two starts is such a day, and any common day forces overlap. */
  lemma OverlapMeansCommonDay(aStart: Date, aEnd: Date, bStart: Date, bEnd: Date)
    requires InRange(aStart) && InRange(aEnd) && InRange(bStart) && InRange(bEnd)
    requires !Before(aEnd, aStart) && !Before(bEnd, bStart)
    ensures var later := if Before(aStart, bStart) then bStart else aStart;
      RangeOverlaps(Format(aStart), Format(aEnd), Format(bStart), Format(bEnd)) <==>
        (!Before(later, aStart) && !Before(aEnd, later) && !Before(later, bStart) && !Before(bEnd, later))
  {
    FormatOrder(aEnd, bStart);
    FormatOrder(bEnd, aStart);
  }

  /** A day that lies in both ranges makes the string test report overlap. */
  lemma CommonDayOverlaps(aStart: Date, aEnd: Date, bStart: Date, bEnd: Date, x: Date)
    requires InRange(aStart) && InRange(aEnd) && InRange(bStart) && InRange(bEnd) && InRange(x)
    requires !Before(x, aStart) && !Before(aEnd, x) && !Before(x, bStart) && !Before(bEnd, x)
    ensures RangeOverlaps(Format(aStart), Format(aEnd), Format(bStart), Format(bEnd))
  {
    FormatOrder(aEnd, bStart);
    FormatOrder(bEnd, aStart);
  }
}
