/** The drag-and-drop editor of the timetable grid: recognising two-period lab blocks,
    validating a block's destination, and the transition one drop makes on the grid. */
module TimetableGrid {
  import opened Wrappers
  import opened TimetableData

  /** A grid slot: `null`, or a cell object. Cells are compared by reference, so a cell is
      an opaque id: two slots hold the same object exactly when they hold the same id, and
      two lectures with equal contents are still different cells. */
  datatype Slot = Null | Cell(id: nat)

  /** One day row: period index to slot. A period missing from the map reads as `undefined`. */
  type DayData = map<int, Slot>

  /** The whole grid: day name to day row. */
  type Timetable = map<string, DayData>

  /** JavaScript truthiness of `dayData[idx]`: the period is present and holds a cell. */
  predicate Filled(day: DayData, idx: int) {
    idx in day && day[idx].Cell?
  }

  /** `copyDay`: a new object binding every key of the day to the same cell. */
  function CopyDay(day: DayData): (copy: DayData)
    ensures copy.Keys == day.Keys
    ensures forall k :: k in day ==> copy[k] == day[k]
  {
    map k | k in day :: day[k]
  }

  /** The `reduce` inside `copyDay`, over one enumeration `keys` of the day's keys. */
  function CopyByKeys(day: DayData, keys: seq<int>): DayData
    requires forall n :: 0 <= n < |keys| ==> keys[n] in day
  {
    if |keys| == 0 then map[]
    else CopyByKeys(day, keys[..|keys| - 1])[keys[|keys| - 1] := day[keys[|keys| - 1]]]
  }

  /** The reduce binds exactly the enumerated keys, each to the day's own cell. */
  lemma {:induction false} CopyByKeysBindsEnumerated(day: DayData, keys: seq<int>)
    requires forall n :: 0 <= n < |keys| ==> keys[n] in day
    ensures forall k :: k in CopyByKeys(day, keys) <==> k in keys
    ensures forall k :: k in CopyByKeys(day, keys) ==> CopyByKeys(day, keys)[k] == day[k]
  {
    if |keys| > 0 {
      var init := keys[..|keys| - 1];
      CopyByKeysBindsEnumerated(day, init);
      assert keys == init + [keys[|keys| - 1]];
    }
  }

  /** Whatever order `Object.keys` lists the keys in, the reduce yields the copy, equal to the day. */
  lemma CopyDayIsReduce(day: DayData, keys: seq<int>)
    requires forall n :: 0 <= n < |keys| ==> keys[n] in day
    requires forall k :: k in day ==> k in keys
    ensures CopyByKeys(day, keys) == CopyDay(day) == day
  {
    CopyByKeysBindsEnumerated(day, keys);
    var copy := CopyByKeys(day, keys);
    forall k | k in copy
      ensures k in day
    {
      var n :| 0 <= n < |keys| && keys[n] == k;
    }
    assert forall k :: k in copy <==> k in day;
    assert forall k :: k in copy ==> copy[k] == day[k];
  }

  /** `data[d] || {}`: the stored row, or an empty row for a day never stored. */
  function DayOf(data: Timetable, d: string): DayData {
    if d in data then data[d] else map[]
  }

  /** `newData` of `handleDragEnd`: a shallow copy of the row of every working day. */
  function Snapshot(data: Timetable): (copies: Timetable)
    ensures forall d :: d in copies <==> d in DAYS
    ensures forall d :: d in copies ==> copies[d] == DayOf(data, d)
  {
    map d | d in DAYS :: CopyDay(DayOf(data, d))
  }

  /** `isTwoSlotAt`: the period holds a cell and the next period holds that very cell. A block is
      recognised by identity, so two equal-looking lectures side by side are not a block. */
  function IsTwoSlotAt(day: DayData, idx: int): (block: bool)
    ensures block <==> Filled(day, idx) && Filled(day, idx + 1) && day[idx + 1].id == day[idx].id
  {
    if !Filled(day, idx) then false
    else idx + 1 in day && day[idx + 1] != Null && day[idx + 1] == day[idx]
  }

  /** `canPlaceTwoSlot`: both periods inside the day, neither of them lunch, both empty. The
      lunch index is the one the search over the period labels finds (`LunchIsPeriodFive`). */
  function CanPlaceTwoSlot(dest: DayData, destIdx: int): (ok: bool)
    ensures ok <==>
      && 0 <= destIdx && destIdx + 1 < PERIODS
      && destIdx != 5 && destIdx + 1 != 5
      && !Filled(dest, destIdx) && !Filled(dest, destIdx + 1)
  {
    PeriodTimingsMatchPeriods();
    if destIdx < 0 || destIdx + 1 >= |PERIOD_TIMINGS| then false
    else
      var lunchIndex := LUNCH_INDEX;
      if destIdx == lunchIndex || destIdx + 1 == lunchIndex then false
      else !Filled(dest, destIdx) && !Filled(dest, destIdx + 1)
  }

  /** A block may start only at periods 0, 1, 2, 3 and 6, whatever the row holds, and on an
      empty row at each of them: periods 4 and 5 would cover lunch, and 7 would run past the day. */
  lemma TwoSlotStarts(dest: DayData, destIdx: int)
    ensures CanPlaceTwoSlot(dest, destIdx) ==> destIdx in {0, 1, 2, 3, 6}
    ensures CanPlaceTwoSlot(map[], destIdx) <==> destIdx in {0, 1, 2, 3, 6}
  {
  }

  /** A slot of the grid as a drag reports it: a day row and a period index. */
  datatype Location = Location(day: string, index: int)

  /** The library's drop report; `destination` is absent when the cell is dropped outside the grid. */
  datatype DropResult = DropResult(source: Location, destination: Option<Location>)

  /** One call `onUpdate(day, newDayData)`. */
  datatype Update = Update(day: string, data: DayData)

  /** How `handleDragEnd` ends. */
  datatype DragOutcome =
    | NoDestination               // dropped outside every row
    | NothingToMove               // the dragged slot holds no cell
    | Refused                     // one of the two alerts
    | Moved(updates: seq<Update>) // the edited rows handed to `onUpdate`

  /** `destOccupant || null`. */
  function Occupant(day: DayData, idx: int): Slot {
    if Filled(day, idx) then day[idx] else Null
  }

  /** The calls to `onUpdate`: the source row, then the destination row when it is another day. */
  function Notify(hasOnUpdate: bool, srcDay: string, srcData: DayData, dstDay: string, dstData: DayData): seq<Update> {
    if !hasOnUpdate then []
    else [Update(srcDay, srcData)] + (if dstDay != srcDay then [Update(dstDay, dstData)] else [])
  }

  /** The drop locations are rows of the grid, and every row is a working day. */
  predicate OnGrid(drop: DropResult) {
    drop.source.day in DAYS && (drop.destination.Some? ==> drop.destination.value.day in DAYS)
  }

  /** `handleDragEnd` from the point the rows are copied: `srcDayData` and `dstDayData` are the
      copied rows of the two days. When both are the same day they are one object, so the
      writes land in order on a single row. */
  function Transition(hasOnUpdate: bool, srcDay: string, srcIdx: int, dstDay: string, dstIdx: int,
                      srcDayData: DayData, dstDayData: DayData): DragOutcome
    requires dstDay == srcDay ==> dstDayData == srcDayData
  {
    if !Filled(srcDayData, srcIdx) then NothingToMove
    else
      var movingCell := srcDayData[srcIdx];
      if IsTwoSlotAt(srcDayData, srcIdx) then
        if !CanPlaceTwoSlot(dstDayData, dstIdx) then Refused
        else
          var cleared := srcDayData[srcIdx := Null][srcIdx + 1 := Null];
          var placed := (if dstDay == srcDay then cleared else dstDayData)[dstIdx := movingCell][dstIdx + 1 := movingCell];
          Moved(Notify(hasOnUpdate, srcDay, if dstDay == srcDay then placed else cleared, dstDay, placed))
      else
        if Filled(dstDayData, dstIdx) && dstIdx + 1 in dstDayData && dstDayData[dstIdx + 1] == dstDayData[dstIdx] then Refused
        else
          var swapped := srcDayData[srcIdx := Occupant(dstDayData, dstIdx)];
          var placed := (if dstDay == srcDay then swapped else dstDayData)[dstIdx := movingCell];
          Moved(Notify(hasOnUpdate, srcDay, if dstDay == srcDay then placed else swapped, dstDay, placed))
  }

  /** `handleDragEnd`: no destination ends the drag; otherwise every working day's row is
      copied and the transition runs on the copies of the two rows involved. */
  function HandleDragEnd(data: Timetable, hasOnUpdate: bool, drop: DropResult): (out: DragOutcome)
    requires OnGrid(drop)
    ensures out.NoDestination? <==> drop.destination.None?
    ensures out.NothingToMove? <==>
      drop.destination.Some? && !Filled(DayOf(data, drop.source.day), drop.source.index)
    ensures out.Refused? <==>
      && drop.destination.Some? && Filled(DayOf(data, drop.source.day), drop.source.index)
      && var dst := DayOf(data, drop.destination.value.day);
         if IsTwoSlotAt(DayOf(data, drop.source.day), drop.source.index)
         then !CanPlaceTwoSlot(dst, drop.destination.value.index)
         else IsTwoSlotAt(dst, drop.destination.value.index)
    ensures out.Moved? && !hasOnUpdate ==> out.updates == []
    ensures out.Moved? && hasOnUpdate ==>
      && |out.updates| == (if drop.destination.value.day == drop.source.day then 1 else 2)
      && out.updates[0].day == drop.source.day
      && (|out.updates| == 2 ==> out.updates[1].day == drop.destination.value.day)
    ensures drop.destination.Some? ==>
      out == Transition(hasOnUpdate, drop.source.day, drop.source.index, drop.destination.value.day,
                        drop.destination.value.index, DayOf(data, drop.source.day), DayOf(data, drop.destination.value.day))
  {
    match drop.destination
    case None => NoDestination
    case Some(destination) =>
      var newData := Snapshot(data);
      Transition(hasOnUpdate, drop.source.day, drop.source.index, destination.day, destination.index,
                 newData[drop.source.day], newData[destination.day])
  }

  /** What a parent that stores every `onUpdate` row does with the calls. */
  function Commit(data: Timetable, updates: seq<Update>): Timetable {
    if |updates| == 0 then data
    else
      var last := updates[|updates| - 1];
      Commit(data, updates[..|updates| - 1])[last.day := last.data]
  }

  /** Storing the calls of one drop writes the source row, then the destination row. */
  lemma CommitNotify(data: Timetable, srcDay: string, srcData: DayData, dstDay: string, dstData: DayData)
    ensures Commit(data, Notify(true, srcDay, srcData, dstDay, dstData)) ==
      if dstDay == srcDay then data[srcDay := srcData] else data[srcDay := srcData][dstDay := dstData]
  {
    var updates := Notify(true, srcDay, srcData, dstDay, dstData);
    if dstDay != srcDay {
      var first := updates[..1];
      assert first == [Update(srcDay, srcData)] && first[..0] == [];
      assert Commit(data, first) == data[srcDay := srcData];
      assert updates[1] == Update(dstDay, dstData);
    } else {
      assert updates[..0] == [];
    }
  }

  /** The slot at a day and period: absent when the day or the period is not stored. */
  function SlotAt(t: Timetable, d: string, k: int): Option<Slot> {
    if d in t && k in t[d] then Some(t[d][k]) else None
  }

  /** The grid after the drop, when the rows handed to `onUpdate` are stored. */
  function After(data: Timetable, drop: DropResult): Timetable
    requires OnGrid(drop)
  {
    var out := HandleDragEnd(data, true, drop);
    if out.Moved? then Commit(data, out.updates) else data
  }

  /** Dropping outside the grid, or dragging an empty slot, leaves the grid as it was and calls nobody. */
  lemma IgnoredDropsChangeNothing(data: Timetable, hasOnUpdate: bool, drop: DropResult)
    requires OnGrid(drop)
    requires drop.destination.None? || !Filled(DayOf(data, drop.source.day), drop.source.index)
    ensures !HandleDragEnd(data, hasOnUpdate, drop).Moved?
    ensures After(data, drop) == data
  {
  }

  /** The validator guards only block moves and drops onto a block's first period: a single
      cell may still be dropped onto the lunch period, or onto the second period of a block,
      which splits the block. */
  lemma {:induction false} UnguardedSingleDrops(data: Timetable, drop: DropResult)
    requires OnGrid(drop) && drop.destination.Some?
    requires Filled(DayOf(data, drop.source.day), drop.source.index)
    requires !IsTwoSlotAt(DayOf(data, drop.source.day), drop.source.index)
    requires
      var dst, j := DayOf(data, drop.destination.value.day), drop.destination.value.index;
      (j == LUNCH_INDEX && !IsTwoSlotAt(dst, j)) || (IsTwoSlotAt(dst, j - 1) && !IsTwoSlotAt(dst, j))
    ensures HandleDragEnd(data, true, drop).Moved?
  {
  }

  /** A block dropped onto itself or shifted by one period within its row is refused, because
      the destination is checked before the block leaves it. */
  lemma {:induction false} OverlappingBlockMoveRefused(data: Timetable, hasOnUpdate: bool, drop: DropResult)
    requires OnGrid(drop) && drop.destination.Some?
    requires drop.destination.value.day == drop.source.day
    requires IsTwoSlotAt(DayOf(data, drop.source.day), drop.source.index)
    requires drop.source.index - 1 <= drop.destination.value.index <= drop.source.index + 1
    ensures HandleDragEnd(data, hasOnUpdate, drop) == Refused
  {
    var day, i, j := DayOf(data, drop.source.day), drop.source.index, drop.destination.value.index;
    assert Filled(day, i) && Filled(day, i + 1);
    assert j == i - 1 || j == i || j == i + 1;
    assert !CanPlaceTwoSlot(day, j);
  }

  /** The rows an accepted block move hands on: the source row loses the block, the
      destination row gains it; on one day both edits land on the same row. */
  lemma BlockTransition(hasOnUpdate: bool, srcDay: string, srcIdx: int, dstDay: string, dstIdx: int,
                        srcDayData: DayData, dstDayData: DayData)
    requires dstDay == srcDay ==> dstDayData == srcDayData
    requires IsTwoSlotAt(srcDayData, srcIdx) && CanPlaceTwoSlot(dstDayData, dstIdx)
    ensures
      var moving := srcDayData[srcIdx];
      var cleared := srcDayData[srcIdx := Null][srcIdx + 1 := Null];
      var placed := (if dstDay == srcDay then cleared else dstDayData)[dstIdx := moving][dstIdx + 1 := moving];
      Transition(hasOnUpdate, srcDay, srcIdx, dstDay, dstIdx, srcDayData, dstDayData)
        == Moved(Notify(hasOnUpdate, srcDay, if dstDay == srcDay then placed else cleared, dstDay, placed))
  {
  }

  /** A block that moved found both destination periods empty. */
  lemma MovedBlockFoundRoom(hasOnUpdate: bool, srcDay: string, srcIdx: int, dstDay: string, dstIdx: int,
                            srcDayData: DayData, dstDayData: DayData)
    requires dstDay == srcDay ==> dstDayData == srcDayData
    requires IsTwoSlotAt(srcDayData, srcIdx)
    requires Transition(hasOnUpdate, srcDay, srcIdx, dstDay, dstIdx, srcDayData, dstDayData).Moved?
    ensures CanPlaceTwoSlot(dstDayData, dstIdx)
    ensures !Filled(dstDayData, dstIdx) && !Filled(dstDayData, dstIdx + 1)
  {
  }

  /** The rows an accepted single-slot drop hands on: the destination's former cell (or `null`)
      goes to the source, the moved cell to the destination. */
  lemma SingleTransition(hasOnUpdate: bool, srcDay: string, srcIdx: int, dstDay: string, dstIdx: int,
                         srcDayData: DayData, dstDayData: DayData)
    requires dstDay == srcDay ==> dstDayData == srcDayData
    requires Filled(srcDayData, srcIdx) && !IsTwoSlotAt(srcDayData, srcIdx) && !IsTwoSlotAt(dstDayData, dstIdx)
    ensures
      var swapped := srcDayData[srcIdx := Occupant(dstDayData, dstIdx)];
      var placed := (if dstDay == srcDay then swapped else dstDayData)[dstIdx := srcDayData[srcIdx]];
      Transition(hasOnUpdate, srcDay, srcIdx, dstDay, dstIdx, srcDayData, dstDayData)
        == Moved(Notify(hasOnUpdate, srcDay, if dstDay == srcDay then placed else swapped, dstDay, placed))
  {
  }

  /** Storing the rows of an accepted block move: the source periods become `null`, the
      destination periods hold the block, no other slot changes. The source periods hold the
      block and the destination periods are empty, so on one day the two edits do not meet. */
  lemma {:induction false} BlockRowsEffect(data: Timetable, src: string, dst: string, i: int, j: int)
    requires src in data && Filled(data[src], i) && Filled(data[src], i + 1)
    requires !Filled(DayOf(data, dst), j) && !Filled(DayOf(data, dst), j + 1)
    ensures
      var moving := data[src][i];
      var cleared := data[src][i := Null][i + 1 := Null];
      var placed := (if dst == src then cleared else DayOf(data, dst))[j := moving][j + 1 := moving];
      var after := if dst == src then data[src := placed] else data[src := cleared][dst := placed];
      && SlotAt(after, src, i) == Some(Null) && SlotAt(after, src, i + 1) == Some(Null)
      && SlotAt(after, dst, j) == Some(moving) && SlotAt(after, dst, j + 1) == Some(moving)
      && forall d, k :: !(d == src && (k == i || k == i + 1)) && !(d == dst && (k == j || k == j + 1)) ==>
           SlotAt(after, d, k) == SlotAt(data, d, k)
  {
    var moving := data[src][i];
    var cleared := data[src][i := Null][i + 1 := Null];
    var placed := (if dst == src then cleared else DayOf(data, dst))[j := moving][j + 1 := moving];
    var after := if dst == src then data[src := placed] else data[src := cleared][dst := placed];
    forall d, k | !(d == src && (k == i || k == i + 1)) && !(d == dst && (k == j || k == j + 1))
      ensures SlotAt(after, d, k) == SlotAt(data, d, k)
    {
      if d == dst {
        assert after[d] == placed;
      } else if d == src {
        assert after[d] == cleared;
      } else {
        assert d in after <==> d in data;
      }
    }
  }

  /** Storing the rows of an accepted single-slot drop: the moved cell at the destination, the
      destination's former cell (or `null`) at the source, no other slot changed. */
  lemma {:induction false} SingleRowsEffect(data: Timetable, src: string, dst: string, i: int, j: int)
    requires src in data && Filled(data[src], i)
    ensures
      var moving := data[src][i];
      var swapped := data[src][i := Occupant(DayOf(data, dst), j)];
      var placed := (if dst == src then swapped else DayOf(data, dst))[j := moving];
      var after := if dst == src then data[src := placed] else data[src := swapped][dst := placed];
      && SlotAt(after, dst, j) == Some(moving)
      && SlotAt(after, src, i) == Some(Occupant(DayOf(data, dst), j))
      && forall d, k :: !(d == src && k == i) && !(d == dst && k == j) ==>
           SlotAt(after, d, k) == SlotAt(data, d, k)
  {
    var moving := data[src][i];
    var swapped := data[src][i := Occupant(DayOf(data, dst), j)];
    var placed := (if dst == src then swapped else DayOf(data, dst))[j := moving];
    var after := if dst == src then data[src := placed] else data[src := swapped][dst := placed];
    forall d, k | !(d == src && k == i) && !(d == dst && k == j)
      ensures SlotAt(after, d, k) == SlotAt(data, d, k)
    {
      if d == dst {
        assert after[d] == placed;
      } else if d == src {
        assert after[d] == swapped;
      } else {
        assert d in after <==> d in data;
      }
    }
  }

  /** An accepted block move empties both source periods, puts the block in both destination
      periods, and leaves every other slot of the grid as it was. */
  lemma {:induction false} TwoSlotMoveEffect(data: Timetable, drop: DropResult)
    requires OnGrid(drop) && drop.destination.Some?
    requires IsTwoSlotAt(DayOf(data, drop.source.day), drop.source.index)
    requires HandleDragEnd(data, true, drop).Moved?
    ensures
      var after, i := After(data, drop), drop.source.index;
      var dst, j := drop.destination.value.day, drop.destination.value.index;
      var moving := DayOf(data, drop.source.day)[i];
      && SlotAt(after, drop.source.day, i) == Some(Null)
      && SlotAt(after, drop.source.day, i + 1) == Some(Null)
      && SlotAt(after, dst, j) == Some(moving)
      && SlotAt(after, dst, j + 1) == Some(moving)
      && forall d, k :: !(d == drop.source.day && (k == i || k == i + 1)) && !(d == dst && (k == j || k == j + 1)) ==>
           SlotAt(after, d, k) == SlotAt(data, d, k)
  {
    var src, dst := drop.source.day, drop.destination.value.day;
    var i, j := drop.source.index, drop.destination.value.index;
    var srcData, dstData := DayOf(data, src), DayOf(data, dst);
    var moving := srcData[i];
    var cleared := srcData[i := Null][i + 1 := Null];
    var placed := (if dst == src then cleared else dstData)[j := moving][j + 1 := moving];
    var srcRow := if dst == src then placed else cleared;
    assert Filled(srcData, i + 1) && !Filled(dstData, j) && !Filled(dstData, j + 1)
        && HandleDragEnd(data, true, drop) == Moved(Notify(true, src, srcRow, dst, placed)) by {
      assert HandleDragEnd(data, true, drop) == Transition(true, src, i, dst, j, srcData, dstData);
      MovedBlockFoundRoom(true, src, i, dst, j, srcData, dstData);
      BlockTransition(true, src, i, dst, j, srcData, dstData);
    }
    CommitNotify(data, src, srcRow, dst, placed);
    BlockRowsEffect(data, src, dst, i, j);
  }

  /** An accepted single-slot drop puts the moved cell at the destination and the destination's
      former cell (or `null`) at the source, and leaves every other slot as it was. */
  lemma {:induction false} SingleMoveEffect(data: Timetable, drop: DropResult)
    requires OnGrid(drop) && drop.destination.Some?
    requires !IsTwoSlotAt(DayOf(data, drop.source.day), drop.source.index)
    requires HandleDragEnd(data, true, drop).Moved?
    ensures
      var after, i := After(data, drop), drop.source.index;
      var dst, j := drop.destination.value.day, drop.destination.value.index;
      && SlotAt(after, dst, j) == Some(DayOf(data, drop.source.day)[i])
      && SlotAt(after, drop.source.day, i) == Some(Occupant(DayOf(data, dst), j))
      && forall d, k :: !(d == drop.source.day && k == i) && !(d == dst && k == j) ==>
           SlotAt(after, d, k) == SlotAt(data, d, k)
  {
    var src, dst := drop.source.day, drop.destination.value.day;
    var i, j := drop.source.index, drop.destination.value.index;
    var srcData, dstData := DayOf(data, src), DayOf(data, dst);
    var moving := srcData[i];
    var swapped := srcData[i := Occupant(dstData, j)];
    var placed := (if dst == src then swapped else dstData)[j := moving];
    var srcRow := if dst == src then placed else swapped;
    assert HandleDragEnd(data, true, drop) == Transition(true, src, i, dst, j, srcData, dstData);
    SingleTransition(true, src, i, dst, j, srcData, dstData);
    CommitNotify(data, src, srcRow, dst, placed);
    assert src in data;
    SingleRowsEffect(data, src, dst, i, j);
  }

  /** Dropping a single cell back onto its own slot is accepted and changes nothing. */
  lemma {:induction false} SameSlotDropIsNoOp(data: Timetable, drop: DropResult)
    requires OnGrid(drop) && drop.destination == Some(drop.source)
    requires Filled(DayOf(data, drop.source.day), drop.source.index)
    requires !IsTwoSlotAt(DayOf(data, drop.source.day), drop.source.index)
    ensures HandleDragEnd(data, true, drop).Moved?
    ensures After(data, drop) == data
  {
    var src, i := drop.source.day, drop.source.index;
    var day := DayOf(data, src);
    var placed := day[i := Occupant(day, i)][i := day[i]];
    assert placed == day;
    assert HandleDragEnd(data, true, drop) == Transition(true, src, i, src, i, day, day);
    SingleTransition(true, src, i, src, i, day, day);
    CommitNotify(data, src, placed, src, placed);
    assert src in data;
  }
}
