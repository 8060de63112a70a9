/** The schedule grid of web/src/components/dashboard/SpreadsheetScheduler.tsx: a
    map from cell keys to painted statuses, updated by a press-drag-release paint
    gesture, and the row labels and staffing verdicts of the pure helpers. */
module Spreadsheet {
  import opened Seqs
  import opened Text
  import opened Types
  import opened Staffing
  import opened Dashboard

  /** `dragStartRef.current`. */
  datatype CellRef = CellRef(memberId: string, slotTime: string)

  datatype RowStaffing = Understaffed | Perfect | Overstaffed

  /** `getCellKey`. */
  function CellKey(memberId: string, slotTime: string): string
  {
    memberId + "-" + slotTime
  }

  /** Member ids are UUIDs and contain '-', so keys are unambiguous only because
      slot times do not: the key then determines both of its parts. */
  lemma CellKeyInjective(m1: string, t1: string, m2: string, t2: string)
    requires '-' !in t1 && '-' !in t2
    requires CellKey(m1, t1) == CellKey(m2, t2)
    ensures m1 == m2 && t1 == t2
  {
    var k := CellKey(m1, t1);
    // both dashes sit where k has a '-', and neither part after them has one
    assert k[|m1|] == '-' && k[|m2|] == '-';
    assert forall j :: |m1| < j < |k| ==> k[j] == t1[j - |m1| - 1];
    assert forall j :: |m2| < j < |k| ==> k[j] == t2[j - |m2| - 1];
    assert |m1| == |m2|;
    assert t1 == k[|m1| + 1..] == t2;
    assert m1 == k[..|m1|] == m2;
  }

  /** Without that restriction two cells share a key: the key joins member id
      and time with '-', so a '-' inside the time makes the split ambiguous. */
  lemma CellKeyCollision()
    ensures CellKey("a-b", "c") == CellKey("a", "b-c")
  {
  }

  predicate HasSlotTime(timeSlots: seq<TimeSlot>, slotTime: string)
  {
    exists i :: 0 <= i < |timeSlots| && timeSlots[i].time == slotTime
  }

  class SpreadsheetScheduler {
    const timeSlots: seq<TimeSlot>
    var isDragging: bool
    var cellAvailability: map<string, AvailabilityStatus>
    var paintMode: AvailabilityStatus
    var dragStart: Option<CellRef>

    constructor (timeSlots: seq<TimeSlot>)
      ensures this.timeSlots == timeSlots
      ensures !isDragging && cellAvailability == map[] && paintMode == Available && dragStart == None
    {
      this.timeSlots := timeSlots;
      isDragging := false;
      cellAvailability := map[];
      paintMode := Available;
      dragStart := None;
    }

    /** `getCellStatus`: the painted status of the cell, grey ("unavailable") when unpainted. */
    function CellStatus(memberId: string, slot: TimeSlot): (s: AvailabilityStatus)
      reads this
      ensures CellKey(memberId, slot.time) in cellAvailability ==> s == cellAvailability[CellKey(memberId, slot.time)]
      ensures CellKey(memberId, slot.time) !in cellAvailability ==> s == Unavailable
    {
      var key := CellKey(memberId, slot.time);
      if key in cellAvailability then cellAvailability[key] else Unavailable
    }

    /** The three paint-mode buttons. */
    method SetPaintMode(mode: AvailabilityStatus)
      modifies this
      ensures paintMode == mode
      ensures isDragging == old(isDragging) && dragStart == old(dragStart) && cellAvailability == old(cellAvailability)
    {
      paintMode := mode;
    }

    /** `handleMouseDown`: on a known slot, start a drag there and paint that one cell. */
    method MouseDown(memberId: string, slotTime: string)
      modifies this
      ensures paintMode == old(paintMode)
      ensures HasSlotTime(timeSlots, slotTime) ==>
        && isDragging
        && dragStart == Some(CellRef(memberId, slotTime))
        && cellAvailability == old(cellAvailability)[CellKey(memberId, slotTime) := paintMode]
      ensures !HasSlotTime(timeSlots, slotTime) ==>
        isDragging == old(isDragging) && dragStart == old(dragStart) && cellAvailability == old(cellAvailability)
    {
      var found := Find((s: TimeSlot) => s.time == slotTime, timeSlots);
      if found.None? {
        return;
      }
      isDragging := true;
      dragStart := Some(CellRef(memberId, slotTime));
      var cellKey := CellKey(memberId, slotTime);
      cellAvailability := cellAvailability[cellKey := paintMode];
    }

    /** `handleMouseEnter`: paint the entered cell while a drag is under way. */
    method MouseEnter(memberId: string, slotTime: string)
      modifies this
      ensures isDragging == old(isDragging) && dragStart == old(dragStart) && paintMode == old(paintMode)
      ensures cellAvailability == if old(isDragging) && old(dragStart).Some?
        then old(cellAvailability)[CellKey(memberId, slotTime) := paintMode]
        else old(cellAvailability)
    {
      if !isDragging || dragStart.None? {
        return;
      }
      var cellKey := CellKey(memberId, slotTime);
      cellAvailability := cellAvailability[cellKey := paintMode];
    }

    /** `handleMouseUp` (also bound to mouse-leave): end the drag, keep the paint. */
    method MouseUp()
      modifies this
      ensures !isDragging && dragStart == None
      ensures cellAvailability == old(cellAvailability) && paintMode == old(paintMode)
    {
      isDragging := false;
      dragStart := None;
    }
  }

  /** Painting one cell changes what that cell shows and no other cell whose slot
      time is free of '-', as generated slot times are. */
  lemma PaintTouchesOneCell(cells: map<string, AvailabilityStatus>, memberId: string, slotTime: string,
                            mode: AvailabilityStatus, otherMember: string, otherTime: string)
    requires '-' !in slotTime && '-' !in otherTime
    requires otherMember != memberId || otherTime != slotTime
    ensures var painted := cells[CellKey(memberId, slotTime) := mode];
      && painted[CellKey(memberId, slotTime)] == mode
      && (CellKey(otherMember, otherTime) in painted <==> CellKey(otherMember, otherTime) in cells)
      && (CellKey(otherMember, otherTime) in cells ==>
            painted[CellKey(otherMember, otherTime)] == cells[CellKey(otherMember, otherTime)])
  {
    if CellKey(otherMember, otherTime) == CellKey(memberId, slotTime) {
      CellKeyInjective(otherMember, otherTime, memberId, slotTime);
    }
  }

  /** `formatTime`: an hour label on the full hour, nothing otherwise. parseInt
      failures (NaN) fall through the comparisons as JavaScript's do. */
  function HourLabel(time: string): string
  {
    var hour := ParseInt(BeforeFirst(time, ':'));
    var minute := match SecondField(time, ':') case None => None case Some(m) => ParseInt(m);
    if minute != Some(0) then ""
    else if hour == Some(0) then "12 AM"
    else if hour.Some? && hour.value < 12 then IntToString(hour.value) + " AM"
    else if hour == Some(12) then "12 PM"
    else if hour.Some? then IntToString(hour.value - 12) + " PM"
    else "NaN PM"
  }

  /** On the slot times the dashboard generates, the label is the 12-hour clock
      hour on the full hour and empty on the quarter hours. */
  lemma HourLabelOfSlotTime(hour: nat, minute: nat)
    requires hour < 24 && minute < 60
    ensures minute != 0 ==> HourLabel(ClockText(hour, minute)) == ""
    ensures minute == 0 && hour == 0 ==> HourLabel(ClockText(hour, minute)) == "12 AM"
    ensures minute == 0 && 1 <= hour <= 11 ==> HourLabel(ClockText(hour, minute)) == NatToString(hour) + " AM"
    ensures minute == 0 && hour == 12 ==> HourLabel(ClockText(hour, minute)) == "12 PM"
    ensures minute == 0 && 13 <= hour ==> HourLabel(ClockText(hour, minute)) == NatToString(hour - 12) + " PM"
  {
    ClockTextParses(hour, minute);
    HourLabelOfParsed(ClockText(hour, minute), hour, minute);
  }

  /** The label depends only on the two numbers the text parses to. */
  lemma HourLabelOfParsed(time: string, hour: nat, minute: nat)
    requires ParseInt(BeforeFirst(time, ':')) == Some(hour)
    requires SecondField(time, ':').Some? && ParseInt(SecondField(time, ':').value) == Some(minute)
    ensures minute != 0 ==> HourLabel(time) == ""
    ensures minute == 0 && hour == 0 ==> HourLabel(time) == "12 AM"
    ensures minute == 0 && 1 <= hour <= 11 ==> HourLabel(time) == NatToString(hour) + " AM"
    ensures minute == 0 && hour == 12 ==> HourLabel(time) == "12 PM"
    ensures minute == 0 && 13 <= hour ==> HourLabel(time) == NatToString(hour - 12) + " PM"
  {
    var m := match SecondField(time, ':') case None => None case Some(f) => ParseInt(f);
    assert m == Some(minute);
    if minute != 0 {
    } else if hour == 0 {
      assert HourLabel(time) == "12 AM";
    } else if hour <= 11 {
      assert IntToString(hour) == NatToString(hour);
    } else if hour == 12 {
      assert HourLabel(time) == "12 PM";
    } else {
      assert IntToString(hour - 12) == NatToString(hour - 12);
    }
  }

  /** `getRowStaffingStatus`. */
  function RowStaffingStatus(slot: TimeSlot): RowStaffing
  {
    match CompareRatioToOne(|slot.assignedUsers|, slot.required)
    case Below => Understaffed
    case Equal => Perfect
    case _ => Overstaffed
  }

  /** For a positive requirement the verdict compares head count with it; a zero
      requirement is always "overstaffed" (0/0 is NaN, n/0 is Infinity). */
  lemma RowStaffingStatusCases(slot: TimeSlot)
    ensures slot.required > 0 ==>
      RowStaffingStatus(slot) == (if |slot.assignedUsers| < slot.required then Understaffed
                                  else if |slot.assignedUsers| == slot.required then Perfect
                                  else Overstaffed)
    ensures slot.required == 0 ==> RowStaffingStatus(slot) == Overstaffed
    ensures slot.required < 0 ==> RowStaffingStatus(slot) == Understaffed
  {
  }

  /** `shouldShowTimeLabel`. */
  predicate ShouldShowTimeLabel(slot: TimeSlot)
  {
    slot.minute == 0
  }

  /** A row shows its time label exactly on the rows whose label text is not empty. */
  lemma TimeLabelShownWithText(hour: nat, minute: nat)
    requires hour < 24 && minute < 60
    ensures var slot := TimeSlot(ClockText(hour, minute), hour, minute, [], [], 0, false);
      ShouldShowTimeLabel(slot) <==> HourLabel(slot.time) != ""
  {
    HourLabelOfSlotTime(hour, minute);
    if minute == 0 && 1 <= hour <= 11 {
      assert |HourLabel(ClockText(hour, minute))| > 0;
    }
  }
}
