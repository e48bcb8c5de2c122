/** The state of the booking grid component and the event handlers that
    update it: the visible days, the booking collection, the drag in
    progress, the pending booking request shown in the dialog, and the
    browser-storage entry the collection is saved under. */
module Grid {
  import opened Wrappers
  import opened JsString
  import opened IsoDate
  import opened Bookings
  import opened Selection
  import opened Overlap

  /** `DAYS_TO_SHOW`. */
  const DaysToShow: nat := 28

  datatype Room = Room(id: string, name: string)

  /** `ROOMS`: the fixed set of rooms and sites, one grid row each. */
  const Rooms: seq<Room> := [
    Room("r1", "Cabin 1"),
    Room("r2", "Cabin 2"),
    Room("r3", "Cabin 3"),
    Room("r4", "Powered Site A"),
    Room("r5", "Powered Site B")
  ]

  predicate IsRoom(roomId: string)
  {
    exists i :: 0 <= i < |Rooms| && Rooms[i].id == roomId
  }

  /** The booking request shown in the dialog once a drag is released. */
  datatype Pending = Pending(roomId: string, start: string, end: string)

  /** What the storage entry `shellybeach.bookings.v1` holds: nothing, text
      that does not parse, or a saved collection. */
  datatype Snapshot = Absent | Malformed | Stored(bookings: seq<Booking>)

  predicate IsTrimmedText(s: string)
  {
    s != [] && Trim(s) == s
  }

  /** A booking as the grid creates it: a known room, `start <= end`, a
      trimmed non-empty guest name and, if present, trimmed non-empty notes. */
  predicate WellFormed(b: Booking)
  {
    && IsRoom(b.roomId)
    && (b.start == b.end || Less(b.start, b.end))
    && IsTrimmedText(b.guestName)
    && (b.notes.Some? ==> IsTrimmedText(b.notes.value))
  }

  predicate AllWellFormed(bs: seq<Booking>)
  {
    forall i :: 0 <= i < |bs| ==> WellFormed(bs[i])
  }

  /** The booking `createBooking` builds from a pending request. */
  function NewBooking(m: Pending, guestName: string, notes: Option<string>, id: string): Booking
  {
    Booking(id, m.roomId, m.start, m.end, guestName, notes)
  }

  /** `notes.trim() || undefined`: trimmed notes, or none when blank. */
  function FormNotes(notesInput: string): (r: Option<string>)
    ensures r.None? <==> IsBlank(notesInput)
    ensures r.Some? ==> IsTrimmedText(r.value)
  {
    var t := Trim(notesInput);
    TrimEmptyIffAllSpace(notesInput);
    TrimIdempotent(notesInput);
    assert Trim(t) == t;
    if t == [] then None else Some(t)
  }

  class BookingGrid {
    const days: seq<string>
    var bookings: seq<Booking>
    var dragging: Option<Drag>
    var modal: Option<Pending>
    var stored: Snapshot

    /** The visible days are 28 identifiers in increasing order; a drag
        stays within them and within a known room; a pending request names
        a known room and a range that does not end before it starts. */
    ghost predicate Valid()
      reads this
    {
      && |days| == DaysToShow
      && (forall i, j :: 0 <= i < j < |days| ==> Less(days[i], days[j]))
      && (dragging.Some? ==>
            && IsRoom(dragging.value.roomId)
            && 0 <= dragging.value.startIdx < |days|
            && 0 <= dragging.value.endIdx < |days|)
      && (modal.Some? ==>
            && IsRoom(modal.value.roomId)
            && (modal.value.start == modal.value.end || Less(modal.value.start, modal.value.end)))
    }

    /** The component as first rendered: the 28 days from `anchor` (today's
        identifier), no bookings, no drag, no dialog. */
    constructor (anchor: string, saved: Snapshot)
      requires EachDayIso(anchor, DaysToShow).Ok?
      ensures Valid()
      ensures days == EachDayIso(anchor, DaysToShow).value
      ensures bookings == [] && dragging == None && modal == None && stored == saved
    {
      EachDayIsoIncreasing(anchor, DaysToShow);
      EachDayIsoEntries(anchor, DaysToShow);
      days := EachDayIso(anchor, DaysToShow).value;
      bookings := [];
      dragging := None;
      modal := None;
      stored := saved;
    }

    /** The load effect: a saved collection replaces the bookings; an
        absent or unreadable entry leaves them as they are. */
    method Load()
      requires Valid()
      modifies this`bookings
      ensures Valid()
      ensures bookings == if stored.Stored? then stored.bookings else old(bookings)
    {
      if stored.Stored? {
        bookings := stored.bookings;
      }
    }

    /** The save effect: the collection is written to storage; a failed
        write is ignored and leaves the stored entry as it was. */
    method Save(writeSucceeds: bool)
      requires Valid()
      modifies this`stored
      ensures Valid()
      ensures stored == if writeSucceeds then Stored(bookings) else old(stored)
    {
      if writeSucceeds {
        stored := Stored(bookings);
      }
    }

    /** `beginDrag`: pressing on a cell starts a drag there. */
    method BeginDrag(roomId: string, dayIdx: int)
      requires Valid() && IsRoom(roomId) && 0 <= dayIdx < |days|
      modifies this`dragging
      ensures Valid()
      ensures dragging == Some(Drag(roomId, dayIdx, dayIdx))
    {
      dragging := Some(Drag(roomId, dayIdx, dayIdx));
    }

    /** `updateDrag`: moving over a cell with the button held moves only
        the end of the drag, whatever the cell's room; without a drag it
        does nothing. */
    method UpdateDrag(dayIdx: int)
      requires Valid() && 0 <= dayIdx < |days|
      modifies this`dragging
      ensures Valid()
      ensures dragging.Some? <==> old(dragging).Some?
      ensures dragging.Some? ==>
        && dragging.value.roomId == old(dragging).value.roomId
        && dragging.value.startIdx == old(dragging).value.startIdx
        && dragging.value.endIdx == dayIdx
    {
      if dragging.Some? {
        dragging := Some(dragging.value.(endIdx := dayIdx));
      }
    }

    /** The pointer leaving the grid body cancels the drag without opening
        the dialog. */
    method CancelDrag()
      requires Valid()
      modifies this`dragging
      ensures Valid() && dragging == None
    {
      dragging := None;
    }

    /** `endDrag`: releasing the pointer ends the drag and opens the dialog
        for the days between its two ends, earlier day first; without a drag
        it does nothing. */
    method EndDrag()
      requires Valid()
      modifies this`dragging, this`modal
      ensures Valid()
      ensures old(dragging).None? ==> dragging == None && modal == old(modal)
      ensures old(dragging).Some? ==>
        var d := old(dragging).value;
        && dragging == None
        && modal == Some(Pending(d.roomId, days[Lo(d)], days[Hi(d)]))
        && (modal.value.start == modal.value.end || Less(modal.value.start, modal.value.end))
    {
      if dragging.None? {
        return;
      }
      var d := dragging.value;
      var lo, hi := Lo(d), Hi(d);
      var start, end := days[lo], days[hi];
      dragging := None;
      modal := Some(Pending(d.roomId, start, end));
    }

    /** Closing the dialog drops the pending request. */
    method DismissModal()
      requires Valid()
      modifies this`modal
      ensures Valid() && modal == None
    {
      modal := None;
    }

    /** `createBooking`: with a pending request, appends one booking for its
        room and range under the fresh id `freshId` and closes the dialog;
        without one it does nothing. The form only ever passes a trimmed
        non-empty guest name and trimmed non-empty notes or none;
        `crypto.randomUUID()` is the oracle that supplies `freshId`. */
    method CreateBooking(guestName: string, notes: Option<string>, freshId: string)
      requires Valid()
      requires IsTrimmedText(guestName)
      requires notes.Some? ==> IsTrimmedText(notes.value)
      requires !HasId(bookings, freshId)
      modifies this`bookings, this`modal
      ensures Valid() && modal == None
      ensures old(modal).None? ==> bookings == old(bookings)
      ensures old(modal).Some? ==>
        bookings == old(bookings) + [NewBooking(old(modal).value, guestName, notes, freshId)]
      ensures AllWellFormed(old(bookings)) ==> AllWellFormed(bookings)
      ensures UniqueIds(old(bookings)) ==> UniqueIds(bookings)
    {
      if modal.None? {
        return;
      }
      var m := modal.value;
      var booking := NewBooking(m, guestName, notes, freshId);
      bookings := bookings + [booking];
      modal := None;
    }

    /** `deleteBooking`: removes the bookings with id `id` and keeps the
        others in order. */
    method DeleteBooking(id: string)
      requires Valid()
      modifies this`bookings
      ensures Valid()
      ensures bookings == WithoutId(old(bookings), id)
      ensures AllWellFormed(old(bookings)) ==> AllWellFormed(bookings)
      ensures UniqueIds(old(bookings)) ==> UniqueIds(bookings)
    {
      WithoutIdSpec(bookings, id);
      if UniqueIds(bookings) {
        WithoutIdKeepsUnique(bookings, id);
      }
      bookings := WithoutId(bookings, id);
    }

    /** The dialog's create button: trims the typed name and notes, refuses
        a name that is all white space, and otherwise creates the booking
        with empty notes dropped. */
    method SubmitForm(guestInput: string, notesInput: string, freshId: string)
      requires Valid()
      requires !HasId(bookings, freshId)
      modifies this`bookings, this`modal
      ensures Valid()
      ensures IsBlank(guestInput) ==> bookings == old(bookings) && modal == old(modal)
      ensures !IsBlank(guestInput) ==>
        && modal == None
        && bookings == if old(modal).None? then old(bookings)
                       else old(bookings) + [NewBooking(old(modal).value, Trim(guestInput), FormNotes(notesInput), freshId)]
    {
      TrimEmptyIffAllSpace(guestInput);
      var name := Trim(guestInput);
      if name == [] {
        return;
      }
      TrimIdempotent(guestInput);
      TrimIdempotent(notesInput);
      CreateBooking(name, FormNotes(notesInput), freshId);
    }
  }

  /** Over strictly increasing day identifiers, a booking from day `lo` to
      day `hi` of the grid, once appended, shows in its room's cells for days
      `lo` to `hi` and in no other cell of that row: the range a drag selects
      is exactly the range the new booking paints. */
  lemma AppendedBookingPaintsItsRange(days: seq<string>, bs: seq<Booking>, b: Booking, lo: int, hi: int, k: int)
    requires forall i, j :: 0 <= i < j < |days| ==> Less(days[i], days[j])
    requires 0 <= lo <= hi < |days| && 0 <= k < |days|
    requires b.start == days[lo] && b.end == days[hi]
    ensures CellBookings(bs + [b], b.roomId, days[k]) ==
      CellBookings(bs, b.roomId, days[k]) + (if lo <= k <= hi then [b] else [])
  {
    GridDayInRange(days, lo, hi, k);
    CellBookingsAppend(bs, b, b.roomId, days[k]);
  }

  /** On increasing grid days, day `k` lies in the range from day `lo` to
      day `hi` exactly when `lo <= k <= hi`. */
  lemma GridDayInRange(days: seq<string>, lo: int, hi: int, k: int)
    requires forall i, j :: 0 <= i < j < |days| ==> Less(days[i], days[j])
    requires 0 <= lo <= hi < |days| && 0 <= k < |days|
    ensures RangeOverlaps(days[lo], days[hi], days[k], days[k]) <==> lo <= k <= hi
  {
    OverlapDay(days[lo], days[hi], days[k]);
    if k < lo {
      LessAsymmetric(days[k], days[lo]);
    } else if k > hi {
      LessAsymmetric(days[hi], days[k]);
    }
    LessIrreflexive(days[k]);
  }

  /** Saving and then opening the grid afresh from the storage entry gives
      back the same bookings. */
  method SaveAndReload(g: BookingGrid, anchor: string) returns (h: BookingGrid)
    requires g.Valid() && EachDayIso(anchor, DaysToShow).Ok?
    modifies g`stored
    ensures fresh(h) && h.Valid()
    ensures h.bookings == g.bookings && h.dragging == None && h.modal == None
  {
    g.Save(true);
    h := new BookingGrid(anchor, g.stored);
    h.Load();
  }
}
