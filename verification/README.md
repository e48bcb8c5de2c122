# Booking grid scheduling model

A Dafny model of the scheduling logic of the Shelly Beach booking grid
(`src/components/BookingGrid.tsx`): a single-user calendar grid in which
each of five rooms or powered sites has one row of 28 day cells. Dragging
across a row selects an inclusive date range; releasing opens a dialog whose
form creates a booking for that range; a booking is painted in every cell it
covers and can be deleted by clicking it; the collection is saved to browser
storage.

The model follows the component's own structure:

- `Calendar` — calendar days as (year, month, day) triples of the proleptic
  Gregorian calendar, the following and preceding day, moving a date by `n`
  days (what `setDate(getDate() + n)` does), and the 28-day sequence
  `eachDay` builds; `eachDay` on identifiers is this sequence written out.
- `IsoDate` — the `yyyy-mm-dd` identifiers (ISO 8601 complete calendar
  dates, extended format, section 4.1.2.2 of ISO 8601:2004): writing and
  reading them, `addDaysISO` and `eachDay` on identifiers.
- `JsString` — JavaScript's string `<` (which the grid uses to compare
  dates) and `trim` (which the booking form applies to the guest name).
- `Overlap` — `rangeOverlaps`, the inclusive-interval test, and why the
  string comparison is the chronological one.
- `Bookings` — the booking record and the three `filter` queries over the
  collection: delete by id, bookings of a room, bookings shown in a cell.
- `Selection` — the drag record and the highlight query `isSelected`.
- `Grid` — the component state as a class `BookingGrid` with fields `days`,
  `bookings`, `dragging`, `modal` and the storage entry `stored`, and one
  method per event handler.
- `LocalTime` — `addDaysISO` as the code computes it on a JavaScript `Date`
  in a time zone away from UTC, including one whose offset changes for
  daylight saving (see Findings).

The current date (`startOfTodayISO`) is a parameter of the constructor, the
id `crypto.randomUUID()` returns is a parameter of `CreateBooking` that must
not be in use, whether a storage write succeeds is a parameter of `Save`, and
the stored entry is an abstract snapshot.

Behaviour the code does not have, and the model therefore does not claim:

- A drag that moves over another room's row still moves its end index:
  `updateDrag` does not look at the room. The booking is always for the room
  where the drag started.
- `createBooking` itself does not reject an empty guest name. The form's
  button trims the name and calls it only when something is left (lines
  273-276). `CreateBooking` takes the form's guarantee as a precondition, and
  `SubmitForm` models the guard.
- Creation never checks for overlapping bookings, so no "no overlap"
  invariant is claimed.
- Ids are unique because the id source never repeats. Loading checks neither
  the ids nor the bookings' shape (a known room, `start <= end`, a trimmed
  name), so `UniqueIds` and `AllWellFormed` are preserved by create and
  delete but not established by `Load`, and `Valid` does not include them.

## Model

| member | source | states |
|---|---|---|
| `JsString.Less` | src/components/BookingGrid.tsx:46 | string `<`, compared character by character with a proper prefix smaller; a string is never less than itself; its order properties are the four lemmas below |
| `JsString.LessTransitive` | src/components/BookingGrid.tsx:46 | string `<` is transitive |
| `JsString.LessAsymmetric` | src/components/BookingGrid.tsx:46 | `a < b` and `b < a` never hold together |
| `JsString.LessTotal` | src/components/BookingGrid.tsx:46 | two different strings are ordered one way or the other |
| `JsString.LessOrEqualIsEqualOrLess` | src/components/BookingGrid.tsx:46 | `a <= b` (that is, `!(b < a)`) holds exactly when `a == b` or `a < b` |
| `JsString.Trim` | src/components/BookingGrid.tsx:274 | `trim` never lengthens a string and leaves neither a leading nor a trailing white-space character; see TrimEmptyIffAllSpace and TrimIdempotent |
| `JsString.TrimEmptyIffAllSpace` | src/components/BookingGrid.tsx:274-275 | a name trims to nothing exactly when it is all white space |
| `JsString.TrimIdempotent` | src/components/BookingGrid.tsx:274-276 | trimming an already trimmed name changes nothing |
| `Calendar.Next` | src/components/BookingGrid.tsx:28 | the day after a real date is a real date and later |
| `Calendar.Prev` | src/components/BookingGrid.tsx:28 | the day before a real date is a real date and earlier |
| `Calendar.NextPrevInverse` | src/components/BookingGrid.tsx:28 | stepping a day forward and back (or back and forward) returns to the same date, across month and year ends |
| `Calendar.NextIsImmediate` | src/components/BookingGrid.tsx:28 | no real date lies strictly between a date and the next one |
| `Calendar.AddDays` | src/components/BookingGrid.tsx:28 | `setDate(getDate() + n)` gives a real date, later than the start for positive `n` and earlier for negative `n`; see AddDaysAdd and AddDaysIncreasing |
| `Calendar.AddDaysAdd` | src/components/BookingGrid.tsx:26-28 | moving by `a` days then by `b` days is moving by `a + b` days, for negative counts too |
| `Calendar.AddDaysIncreasing` | src/components/BookingGrid.tsx:26-28 | moving by more days gives a strictly later date |
| `Calendar.AddDaysYearBound` | src/components/BookingGrid.tsx:26-28 | moving forward by `n` days never goes back a year and advances at most `n` years |
| `Calendar.EachDay` | src/components/BookingGrid.tsx:37-39 | the days of `eachDay` as calendar dates: `count` of them; see EachDayConsecutive and EachDayIncreasing |
| `Calendar.EachDayConsecutive` | src/components/BookingGrid.tsx:37-39 | the sequence starts at the anchor and each entry is the day after the previous one |
| `Calendar.EachDayIncreasing` | src/components/BookingGrid.tsx:37-39 | the sequence is chronologically increasing, so no day repeats |
| `IsoDate.Format` | src/components/BookingGrid.tsx:30 | `toISOString().slice(0, 10)` gives ten characters with dashes at positions 4 and 7; see ParseFormat, FormatInjective and FormatOrder |
| `IsoDate.Parse` | src/components/BookingGrid.tsx:27 | `new Date(iso)` on a `yyyy-mm-dd` string gives a real date with a four-digit year, or nothing; see FormatParse |
| `IsoDate.ParseFormat` | src/components/BookingGrid.tsx:27-30 | reading the identifier written for a date gives that date back |
| `IsoDate.FormatParse` | src/components/BookingGrid.tsx:27-30 | every string that reads as a date is exactly the identifier written for that date |
| `IsoDate.FormatOrder` | src/components/BookingGrid.tsx:9-10 | for zero-padded `yyyy-mm-dd` identifiers, string `<` is chronological order |
| `IsoDate.FormatInjective` | src/components/BookingGrid.tsx:9-10 | different dates have different identifiers |
| `IsoDate.AddDaysIso` | src/components/BookingGrid.tsx:26-31 | the result reads as the input date moved by `n` days; it fails as unparseable exactly when the input does not read as a date, and for a readable input it succeeds exactly when the moved date has a four-digit year |
| `IsoDate.AddDaysIsoZero` | src/components/BookingGrid.tsx:26-31 | moving an identifier by zero days gives it back |
| `IsoDate.EachDayIso` | src/components/BookingGrid.tsx:37-39 | `eachDay(start, count)` gives `count` identifiers, and fails as unparseable exactly when the start does not read as a date; see the EachDayIso lemmas below |
| `IsoDate.EachDayIsoEntries` | src/components/BookingGrid.tsx:37-39 | `eachDay` has `count` entries and entry `i` is `addDaysISO(start, i)`; it fails only when one of those calls fails |
| `IsoDate.EachDayIsoSucceeds` | src/components/BookingGrid.tsx:37-39 | `eachDay` succeeds exactly when `count` is zero, or the start reads as a date and each of the `count` days from it has a four-digit year |
| `IsoDate.EachDayIsoSucceedsBeforeYear10000` | src/components/BookingGrid.tsx:51 | any readable anchor at least `count` years before the year 10000 gives the grid its days |
| `IsoDate.EachDayIsoStartsAtAnchor` | src/components/BookingGrid.tsx:51 | the first visible day is the anchor itself |
| `IsoDate.EachDayIsoConsecutive` | src/components/BookingGrid.tsx:37-39 | each identifier `eachDay` produces names the calendar day after the one before it |
| `IsoDate.EachDayIsoIncreasing` | src/components/BookingGrid.tsx:51 | the visible days are strictly increasing in string order, so none repeats |
| `Overlap.RangeOverlaps` | src/components/BookingGrid.tsx:40-47 | "neither `aEnd < bStart` nor `bEnd < aStart`", with `<` as `JsString.Less`, holds exactly when each range starts no later than the other ends; see OverlapDay and OverlapMeansCommonDay |
| `Overlap.OverlapSymmetric` | src/components/BookingGrid.tsx:40-47 | `rangeOverlaps(a, b) == rangeOverlaps(b, a)` |
| `Overlap.OverlapSelf` | src/components/BookingGrid.tsx:40-47 | a range with `start <= end` overlaps itself |
| `Overlap.OverlapDay` | src/components/BookingGrid.tsx:46 | `[s, e]` overlaps the single day `[d, d]` exactly when `s <= d <= e` in string order |
| `Overlap.OverlapDayChronological` | src/components/BookingGrid.tsx:167 | on identifiers, the single-day test holds exactly when the day is neither before the start nor after the end |
| `Overlap.OverlapMeansCommonDay` | src/components/BookingGrid.tsx:40-47 | two non-empty date ranges overlap exactly when the later of their two starts lies in both |
| `Overlap.CommonDayOverlaps` | src/components/BookingGrid.tsx:40-47 | a day lying in both ranges makes the test report overlap |
| `Bookings.Filter` | src/components/BookingGrid.tsx:112 | `filter` keeps only elements the test accepts, and every accepted element of the input is kept |
| `Bookings.FilterConcat` | src/components/BookingGrid.tsx:116 | filtering keeps insertion order: it distributes over concatenation |
| `Bookings.FilterFilter` | src/components/BookingGrid.tsx:166-167 | two filters in a row equal one filter by both conditions |
| `Bookings.WithoutId` | src/components/BookingGrid.tsx:111-113 | the collection after `deleteBooking(id)` is no longer and has no booking with that id; see WithoutIdSpec |
| `Bookings.WithoutIdSpec` | src/components/BookingGrid.tsx:111-113 | delete keeps exactly the bookings with another id; deleting an absent id leaves the collection unchanged |
| `Bookings.WithoutIdIdempotent` | src/components/BookingGrid.tsx:111-113 | deleting an id twice equals deleting it once |
| `Bookings.WithoutIdUndoesAppend` | src/components/BookingGrid.tsx:107-112 | deleting a just-created booking under its fresh id restores the previous collection |
| `Bookings.WithoutIdKeepsUnique` | src/components/BookingGrid.tsx:112 | delete keeps ids unique |
| `Bookings.ForRoom` | src/components/BookingGrid.tsx:115-117 | `roomBookings(roomId)` holds exactly the bookings of that room |
| `Bookings.CellBookings` | src/components/BookingGrid.tsx:166-167 | a cell holds exactly the bookings of its room whose `start <= day <= end` in string order; CellBookingsSpec adds the order |
| `Bookings.CellBookingsSpec` | src/components/BookingGrid.tsx:166-167 | a cell shows exactly the bookings of its room whose `[start, end]` contains its day, in insertion order |
| `Bookings.CellBookingsAppend` | src/components/BookingGrid.tsx:166-167 | appending a booking adds it to every cell of its room it covers, at the end, and changes no other cell |
| `Bookings.ThreeNightExample` | src/components/BookingGrid.tsx:166-167 | a booking of r2 from 2025-03-10 to 2025-03-12 shows in r2's cell for 2025-03-11 and not in r1's |
| `Selection.IsSelected` | src/components/BookingGrid.tsx:119-126 | a cell is highlighted exactly when a drag is in progress in its room and its day index lies between the two ends, in either order; see IsSelectedSpec |
| `Selection.Lo` | src/components/BookingGrid.tsx:121-124 | the lower end of a drag is the smaller of its two indices |
| `Selection.Hi` | src/components/BookingGrid.tsx:121-124 | the upper end of a drag is the larger of its two indices |
| `Selection.IsSelectedSpec` | src/components/BookingGrid.tsx:119-126 | a cell is highlighted exactly when a drag in its room is in progress and its index lies between the drag's ends, in either direction; swapping the ends changes nothing |
| `Selection.RightToLeftDrag` | src/components/BookingGrid.tsx:119-126 | a drag in r1 from index 5 back to 2 highlights exactly cells 2 to 5 of r1 and nothing in other rows |
| `Grid.BookingGrid.constructor` | src/components/BookingGrid.tsx:50-63 | the component starts with the 28 days from the anchor, no bookings, no drag and no dialog, and its invariant holds |
| `Grid.BookingGrid.Load` | src/components/BookingGrid.tsx:66-71 | a stored collection replaces the bookings; an absent or unreadable entry leaves them unchanged |
| `Grid.BookingGrid.Save` | src/components/BookingGrid.tsx:72-76 | a successful write stores the current collection; a failed write is ignored |
| `Grid.BookingGrid.BeginDrag` | src/components/BookingGrid.tsx:78-80 | pressing a cell sets the drag to that room with start and end at that index, changing nothing else |
| `Grid.BookingGrid.UpdateDrag` | src/components/BookingGrid.tsx:81-83 | moving changes only the end index of a drag in progress and does nothing when idle |
| `Grid.BookingGrid.CancelDrag` | src/components/BookingGrid.tsx:151 | leaving the grid clears the drag and does not open the dialog |
| `Grid.BookingGrid.EndDrag` | src/components/BookingGrid.tsx:84-94 | releasing does nothing when idle; otherwise it clears the drag and opens the dialog for the drag's room from `days[min]` to `days[max]`, so start is not after end |
| `Grid.BookingGrid.DismissModal` | src/components/BookingGrid.tsx:191 | closing the dialog drops the pending request |
| `Grid.BookingGrid.CreateBooking` | src/components/BookingGrid.tsx:96-109 | without a dialog nothing changes; otherwise exactly one booking with the dialog's room and range, the given name and notes and the fresh id is appended, the old bookings stay an unchanged prefix, and the dialog closes; well-formedness and unique ids are preserved |
| `Grid.BookingGrid.DeleteBooking` | src/components/BookingGrid.tsx:111-113 | the collection becomes the old one without the bookings of that id; well-formedness and unique ids are preserved |
| `Grid.FormNotes` | src/components/BookingGrid.tsx:276 | the notes passed to create (`notes.trim()`, or `undefined` when that is empty) are absent exactly when the notes are all white space, and otherwise trimmed and non-empty |
| `Grid.BookingGrid.SubmitForm` | src/components/BookingGrid.tsx:273-276 | an all-white-space name changes nothing; otherwise the trimmed name and trimmed-or-absent notes are passed to create |
| `Grid.GridDayInRange` | src/components/BookingGrid.tsx:166-167 | on the increasing grid days, day `k` lies in the range from day `lo` to day `hi` exactly when `lo <= k <= hi` |
| `Grid.AppendedBookingPaintsItsRange` | src/components/BookingGrid.tsx:84-94 | a booking from grid day `lo` to grid day `hi` shows in its row's cells exactly for days `lo` to `hi` |
| `Grid.SaveAndReload` | src/components/BookingGrid.tsx:66-76 | saving and then opening the grid again from storage gives back the same bookings |
| `LocalTime.AddDaysIsoAsWritten` | src/components/BookingGrid.tsx:26-31 | `addDaysISO` as written, given the two offsets: it fails as unparseable exactly when the input does not read as a date, and a result reads as a date; see AsWrittenLags |
| `LocalTime.AsWrittenAtUtc` | src/components/BookingGrid.tsx:26-31 | at UTC the code's computation is the intended one |
| `LocalTime.AsWrittenLags` | src/components/BookingGrid.tsx:26-31 | for any offsets at the identifier's instant and at the target's local midnight, the code's result is the intended result for `n` days less one for a western offset at the first and one for an eastern offset at the second |
| `LocalTime.AsWrittenIsOneDayEarly` | src/components/BookingGrid.tsx:26-31 | at any other fixed offset, east or west, the code's result is the intended result for `n - 1` days |
| `LocalTime.AsWrittenRepeatsDay` | src/components/BookingGrid.tsx:26-39 | when the offset at local midnight moves from UTC or west of it to east of it between consecutive target days, two consecutive `eachDay` entries are the same identifier |
| `LocalTime.AsWrittenSkipsDay` | src/components/BookingGrid.tsx:26-39 | when it moves back from east to UTC or west, two consecutive entries are the intended days `n - 1` and `n + 1`, skipping day `n` |
| `LocalTime.AsWrittenSpringRepeat` | src/components/BookingGrid.tsx:37-39 | on a clock that moves from UTC to one hour ahead at 01:00 UTC on 2025-03-30, entries 1 and 2 of `eachDay("2025-03-29", 3)` are both "2025-03-30" |
| `LocalTime.AsWrittenCounterexample` | src/components/BookingGrid.tsx:26-31 | ten hours ahead of UTC, `addDaysISO("2025-03-10", 0)` computes "2025-03-09" where "2025-03-10" is intended |

## Left out

- `startOfTodayISO` (lines 32-36) reads the wall clock; the anchor is a constructor parameter. Its own time-zone behaviour is not modelled: ahead of UTC it gives yesterday's identifier.
- `crypto.randomUUID()` (line 98) is a foreign call: the id is a parameter of `CreateBooking` required not to be in use.
- JSON encoding and `localStorage` (lines 65-76) are foreign calls: the stored entry is an abstract `Snapshot` (absent, unreadable, or a booking collection).
- Grid.BookingGrid.Load: text that parses as JSON but is not an array of bookings would be loaded as-is by the code; the model's stored entry always holds bookings.
- Grid.BookingGrid.Save: the component runs the save effect after every render in which `bookings` changed, including the first; the model makes it a separate step rather than part of each handler.
- IsoDate.AddDaysIso: for years outside 0000-9999, `toISOString` writes a signed six-digit year that `slice(0, 10)` cuts short; the model reports `OutOfRange` there instead. The `Date` range limit of about 275,000 years is not modelled.
- IsoDate.Parse: only the `yyyy-mm-dd` form naming a real calendar day is read. JavaScript engines also accept other formats, and some roll over day numbers such as 02-30. The grid only parses identifiers that `toISOString` wrote.
- JsString.Less: compares Unicode scalar values, where JavaScript compares UTF-16 code units; the two differ only for characters outside the Basic Multilingual Plane, which identifiers never contain.
- LocalTime.AddDaysIsoAsWritten: the offsets in effect at the identifier's instant and at the target's local midnight are parameters; the time-zone database that determines them from the zone and the instant is not modelled. Offsets of a day or more are excluded.
- A day-count difference between two dates: the source has no such helper.
- Rendering (lines 128-201): the table markup, CSS classes, the `toLocaleDateString` headers and the room-name lookup for the dialog (line 193) are presentation only.
- The `Modal` component (lines 204-234) and the `BookingForm` input widgets (lines 236-286) are UI chrome; only the dialog's close action (`DismissModal`) and the submit guard (`SubmitForm`) are modelled.
- The delete confirmation prompt (line 175) happens before `deleteBooking` is called; `DeleteBooking` models the call after a "yes".
- The `e.buttons === 1` check (line 159): `UpdateDrag` models the call made when the primary button is held; other moves call nothing.
- `src/app/page.tsx` is a static page shell and is not part of this model.

## Findings

| source | as written | input that shows it | evidently intended | confidence | as-written member | corrected member |
|---|---|---|---|---|---|---|
| src/components/BookingGrid.tsx:26-31 | `new Date(iso)` is midnight UTC, `setDate`/`setHours` work on the local clock and `toISOString` writes the UTC date, so at any non-zero offset from UTC `addDaysISO(iso, n)` gives the day `n - 1` days after `iso`, and `eachDay` starts the grid a day before its anchor | `addDaysISO("2025-03-10", 0)` with the clock ten hours ahead of UTC gives `"2025-03-09"` | the day `n` days after `iso`; `addDaysISO(iso, 0) == iso` | not executed; high | `LocalTime.AsWrittenCounterexample` | `IsoDate.AddDaysIsoZero` |
| src/components/BookingGrid.tsx:26-39 | the offset used to read the identifier and the offset at each target's local midnight can differ across a daylight-saving change, so where the offset crosses from UTC to ahead of it `eachDay` repeats a day, and where it crosses back it skips one | `eachDay("2025-03-29", 3)` on a clock that moves from UTC to one hour ahead at 01:00 UTC on 2025-03-30 (as Europe/London does) gives "2025-03-30" as entries 1 and 2 | consecutive days, none repeated or skipped | not executed; high | `LocalTime.AsWrittenSpringRepeat` | `IsoDate.EachDayIsoIncreasing` |
