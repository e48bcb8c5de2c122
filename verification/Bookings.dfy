/** The booking records and the queries the grid runs over them: all of
    them are `Array.prototype.filter` calls over the booking sequence. */
module Bookings {
  import opened Wrappers
  import opened JsString
  import opened Overlap

  datatype Booking = Booking(
    id: string,
    roomId: string,
    start: string,          // yyyy-mm-dd
    end: string,            // inclusive
    guestName: string,
    notes: Option<string>)

  /** `s.filter(keep)`: the elements `keep` accepts, in their order. */
  function Filter<T>(s: seq<T>, keep: T -> bool): (r: seq<T>)
    ensures |r| <= |s|
    ensures forall i :: 0 <= i < |r| ==> r[i] in s && keep(r[i])
    ensures forall i :: 0 <= i < |s| && keep(s[i]) ==> s[i] in r
  {
    if s == [] then []
    else (if keep(s[0]) then [s[0]] else []) + Filter(s[1..], keep)
  }

  /** Filtering a concatenation filters each part and keeps them in order. */
  lemma {:induction false} FilterConcat<T>(a: seq<T>, b: seq<T>, keep: T -> bool)
    ensures Filter(a + b, keep) == Filter(a, keep) + Filter(b, keep)
  {
    if a == [] {
      assert a + b == b;
    } else {
      assert (a + b)[0] == a[0] && (a + b)[1..] == a[1..] + b;
      FilterConcat(a[1..], b, keep);
    }
  }

  /** A filter that accepts every element changes nothing. */
  lemma {:induction false} FilterKeepsAll<T>(s: seq<T>, keep: T -> bool)
    requires forall i :: 0 <= i < |s| ==> keep(s[i])
    ensures Filter(s, keep) == s
  {
    if s != [] {
      FilterKeepsAll(s[1..], keep);
    }
  }

  /** Two filters in a row are one filter by both conditions. */
  lemma {:induction false} FilterFilter<T>(s: seq<T>, p: T -> bool, q: T -> bool, both: T -> bool)
    requires forall x :: both(x) == (p(x) && q(x))
    ensures Filter(Filter(s, p), q) == Filter(s, both)
  {
    if s != [] {
      FilterFilter(s[1..], p, q, both);
      assert Filter(s, p) == (if p(s[0]) then [s[0]] else []) + Filter(s[1..], p);
      FilterConcat(if p(s[0]) then [s[0]] else [], Filter(s[1..], p), q);
    }
  }

  predicate HasId(bs: seq<Booking>, id: string)
  {
    exists i :: 0 <= i < |bs| && bs[i].id == id
  }

  /** No two bookings of the collection share an id. */
  predicate UniqueIds(bs: seq<Booking>)
  {
    forall i, j :: 0 <= i < j < |bs| ==> bs[i].id != bs[j].id
  }

  /** `prev.filter((b) => b.id !== id)`: the collection without the
      bookings whose id is `id`. */
  function WithoutId(bs: seq<Booking>, id: string): (r: seq<Booking>)
    ensures |r| <= |bs| && !HasId(r, id)
  {
    Filter(bs, (b: Booking) => b.id != id)
  }

  /** Deleting keeps exactly the bookings with another id, and deleting an
      id that is absent changes nothing. */
  lemma WithoutIdSpec(bs: seq<Booking>, id: string)
    ensures forall b :: b in WithoutId(bs, id) <==> b in bs && b.id != id
    ensures !HasId(bs, id) ==> WithoutId(bs, id) == bs
  {
    if !HasId(bs, id) {
      FilterKeepsAll(bs, (b: Booking) => b.id != id);
    }
  }

  /** Deleting the same id twice is deleting it once. */
  lemma WithoutIdIdempotent(bs: seq<Booking>, id: string)
    ensures WithoutId(WithoutId(bs, id), id) == WithoutId(bs, id)
  {
    var r := WithoutId(bs, id);
    assert forall i :: 0 <= i < |r| ==> r[i] in r;
    FilterKeepsAll(r, (b: Booking) => b.id != id);
  }

  /** Deleting a booking right after appending it, under an id no other
      booking has, restores the collection. */
  lemma WithoutIdUndoesAppend(bs: seq<Booking>, b: Booking)
    requires !HasId(bs, b.id)
    ensures WithoutId(bs + [b], b.id) == bs
  {
    FilterConcat(bs, [b], (x: Booking) => x.id != b.id);
    WithoutIdSpec(bs, b.id);
    assert Filter([b], (x: Booking) => x.id != b.id) == [] by {
      assert [b][1..] == [];
    }
  }

  /** Deleting keeps ids unique. */
  lemma WithoutIdKeepsUnique(bs: seq<Booking>, id: string)
    requires UniqueIds(bs)
    ensures UniqueIds(WithoutId(bs, id))
  {
    if bs != [] {
      var tail := bs[1..];
      WithoutIdKeepsUnique(tail, id);
      var r := WithoutId(bs, id);
      if bs[0].id != id {
        assert r == [bs[0]] + WithoutId(tail, id);
        forall j | 1 <= j < |r|
          ensures r[0].id != r[j].id
        {
          assert r[j] in WithoutId(tail, id);
          WithoutIdSpec(tail, id);
        }
      }
    }
  }

  /** `roomBookings(roomId)`: the bookings of one room, in insertion order. */
  function ForRoom(bs: seq<Booking>, roomId: string): (r: seq<Booking>)
    ensures forall b :: b in r <==> b in bs && b.roomId == roomId
  {
    Filter(bs, (b: Booking) => b.roomId == roomId)
  }

  /** The bookings a grid cell shows: those of room `roomId` whose range
      overlaps the single day `[day, day]`. */
  function CellBookings(bs: seq<Booking>, roomId: string, day: string): (r: seq<Booking>)
    ensures forall b :: b in r <==>
      b in bs && b.roomId == roomId && (b.start == day || Less(b.start, day)) && (day == b.end || Less(day, b.end))
  {
    Filter(ForRoom(bs, roomId), (b: Booking) => RangeOverlaps(b.start, b.end, day, day))
  }

  /** A cell shows exactly the bookings of its room whose inclusive range
      `[start, end]` contains its day in string order, in insertion order:
      the cell query is a single filter by both conditions. */
  lemma CellBookingsSpec(bs: seq<Booking>, roomId: string, day: string)
    ensures var contains := (b: Booking) => b.roomId == roomId && (b.start == day || Less(b.start, day)) && (day == b.end || Less(day, b.end));
      CellBookings(bs, roomId, day) == Filter(bs, contains)
  {
    var inRoom := (b: Booking) => b.roomId == roomId;
    var onDay := (b: Booking) => RangeOverlaps(b.start, b.end, day, day);
    var contains := (b: Booking) => b.roomId == roomId && (b.start == day || Less(b.start, day)) && (day == b.end || Less(day, b.end));
    forall b: Booking
      ensures contains(b) == (inRoom(b) && onDay(b))
    {
      OverlapDay(b.start, b.end, day);
    }
    FilterFilter(bs, inRoom, onDay, contains);
  }

  /** Appending a booking adds it to the cell query of every cell it covers
      and leaves every other cell as it was. */
  lemma CellBookingsAppend(bs: seq<Booking>, b: Booking, roomId: string, day: string)
    ensures CellBookings(bs + [b], roomId, day) ==
      CellBookings(bs, roomId, day) + (if b.roomId == roomId && RangeOverlaps(b.start, b.end, day, day) then [b] else [])
  {
    var inRoom := (x: Booking) => x.roomId == roomId;
    var onDay := (x: Booking) => RangeOverlaps(x.start, x.end, day, day);
    FilterConcat(bs, [b], inRoom);
    assert Filter([b], inRoom) == if inRoom(b) then [b] else [] by {
      assert [b][1..] == [];
    }
    FilterConcat(ForRoom(bs, roomId), Filter([b], inRoom), onDay);
    if inRoom(b) {
      assert Filter([b], onDay) == if onDay(b) then [b] else [] by {
        assert [b][1..] == [];
      }
    }
  }

  lemma MarchDayOrder()
    ensures Less("2025-03-10", "2025-03-11") && Less("2025-03-11", "2025-03-12")
  {
    var prefix := "2025-03-1";
    LessIrreflexive(prefix);
    assert "2025-03-10" == prefix + "0" && "2025-03-11" == prefix + "1";
    LessOfConcat(prefix, "0", prefix, "1");
    assert "2025-03-12" == prefix + "2";
    LessOfConcat(prefix, "1", prefix, "2");
  }

  /** A booking of room r2 from 2025-03-10 to 2025-03-12 shows in that
      room's cell for 2025-03-11 and in no cell of room r1. */
  lemma ThreeNightExample()
    ensures var b := Booking("b1", "r2", "2025-03-10", "2025-03-12", "Smith", None);
      CellBookings([b], "r2", "2025-03-11") == [b] && CellBookings([b], "r1", "2025-03-11") == []
  {
    var b := Booking("b1", "r2", "2025-03-10", "2025-03-12", "Smith", None);
    MarchDayOrder();
    assert RangeOverlaps(b.start, b.end, "2025-03-11", "2025-03-11") by {
      LessAsymmetric("2025-03-10", "2025-03-11");
      LessAsymmetric("2025-03-11", "2025-03-12");
    }
    CellBookingsAppend([], b, "r2", "2025-03-11");
    CellBookingsAppend([], b, "r1", "2025-03-11");
    assert [] + [b] == [b];
  }
}
