/** The drag gesture over one row of the grid: which room it started in and
    the day indices where it started and where the pointer is now. */
module Selection {
  import opened Wrappers

  datatype Drag = Drag(roomId: string, startIdx: int, endIdx: int)

  /** `Math.min(startIdx, endIdx)`. */
  function Lo(d: Drag): (lo: int)
    ensures lo <= d.startIdx && lo <= d.endIdx && (lo == d.startIdx || lo == d.endIdx)
  {
    if d.startIdx <= d.endIdx then d.startIdx else d.endIdx
  }

  /** `Math.max(startIdx, endIdx)`. */
  function Hi(d: Drag): (hi: int)
    ensures hi >= d.startIdx && hi >= d.endIdx && (hi == d.startIdx || hi == d.endIdx)
  {
    if d.startIdx <= d.endIdx then d.endIdx else d.startIdx
  }

  /** `isSelected(roomId, dayIdx)`: the cell is highlighted while a drag in
      its room covers its day index. */
  function IsSelected(dragging: Option<Drag>, roomId: string, dayIdx: int): (r: bool)
    ensures r <==>
      && dragging.Some? && dragging.value.roomId == roomId
      && (|| dragging.value.startIdx <= dayIdx <= dragging.value.endIdx
          || dragging.value.endIdx <= dayIdx <= dragging.value.startIdx)
  {
    dragging.Some? && dragging.value.roomId == roomId
    && Lo(dragging.value) <= dayIdx <= Hi(dragging.value)
  }

  /** A cell is highlighted exactly when a drag is in progress in its room
      and its index lies between the two ends of the drag, whichever end is
      the larger; swapping the ends changes nothing. */
  lemma IsSelectedSpec(dragging: Option<Drag>, roomId: string, dayIdx: int)
    ensures IsSelected(dragging, roomId, dayIdx) <==>
      && dragging.Some? && dragging.value.roomId == roomId
      && var s, e := dragging.value.startIdx, dragging.value.endIdx;
         (s <= dayIdx <= e || e <= dayIdx <= s)
    ensures dragging.Some? ==>
      var d := dragging.value;
      IsSelected(dragging, roomId, dayIdx) == IsSelected(Some(Drag(d.roomId, d.endIdx, d.startIdx)), roomId, dayIdx)
  {
  }

  /** A drag in room r1 from index 5 back to index 2 highlights exactly the
      cells 2, 3, 4 and 5 of that row and nothing in any other row. */
  lemma RightToLeftDrag(k: int, roomId: string)
    ensures IsSelected(Some(Drag("r1", 5, 2)), "r1", k) <==> 2 <= k <= 5
    ensures roomId != "r1" ==> !IsSelected(Some(Drag("r1", 5, 2)), roomId, k)
  {
  }
}
