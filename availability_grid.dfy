/** The availability painter of web/src/components/availability/AvailabilityGrid.tsx:
    the current user presses on one of their own cells, drags over a run of slots
    and releases; the release submits the run, widened by one slot, to the
    `updateAvailability` action. Slot times are minutes on the quarter hour. */
module AvailabilityGrid {
  import opened Seqs
  import opened Types
  import opened Dashboard
  import opened Actions

  /** The earlier and the later end of a drag, either way round. */
  function DragLow(a: int, b: int): int { if a < b then a else b }

  function DragHigh(a: int, b: int): int { if a < b then b else a }

  /** The range a release submits: from the earlier slot to the end of the later one. */
  function SubmittedRange(dragStart: int, dragEnd: int): (r: (int, int))
    ensures r.0 < r.1
    ensures r.0 <= dragStart < r.1 && r.0 <= dragEnd < r.1
    ensures r.1 - r.0 == (if dragStart < dragEnd then dragEnd - dragStart else dragStart - dragEnd) + SlotLength
  {
    (DragLow(dragStart, dragEnd), DragHigh(dragStart, dragEnd) + SlotLength)
  }

  /** Dragging down or up over the same slots submits the same range. */
  lemma SubmittedRangeSymmetric(a: int, b: int)
    ensures SubmittedRange(a, b) == SubmittedRange(b, a)
  {
  }

  /** The inclusive preview and the half-open submitted range agree on every slot
      of the quarter-hour grid the two ends lie on. */
  lemma PreviewIsSubmittedRange(a: int, b: int, slot: int)
    requires (b - a) % 15 == 0 && (slot - a) % 15 == 0
    ensures DragLow(a, b) <= slot <= DragHigh(a, b) <==>
      SubmittedRange(a, b).0 <= slot < SubmittedRange(a, b).1
  {
    var hi := DragHigh(a, b);
    assert (slot - hi) % 15 == 0;
  }

  predicate Covers(userId: string, slot: int, a: AvailabilityRow)
  {
    a.userId == userId && a.startTime <= slot < a.endTime
  }

  /** The stored status of a cell: that of the first row of the user covering the
      slot, None when no row covers it. */
  function StoredStatus(existing: seq<AvailabilityRow>, userId: string, slot: int): (r: Option<AvailabilityStatus>)
    ensures r.None? <==> forall k :: 0 <= k < |existing| ==> !Covers(userId, slot, existing[k])
    ensures r.Some? ==> exists k :: 0 <= k < |existing| && Covers(userId, slot, existing[k])
                                   && existing[k].status == r.value
                                   && forall j :: 0 <= j < k ==> !Covers(userId, slot, existing[j])
  {
    match Find((a: AvailabilityRow) => Covers(userId, slot, a), existing)
    case None => None
    case Some(a) => Some(a.status)
  }

  class AvailabilityGrid {
    const currentUserId: string
    const existing: seq<AvailabilityRow>
    var isDragging: bool
    var dragStart: Option<int>
    var dragEnd: Option<int>
    var dragStatus: AvailabilityStatus

    constructor (currentUserId: string, existing: seq<AvailabilityRow>)
      ensures this.currentUserId == currentUserId && this.existing == existing
      ensures !isDragging && dragStart == None && dragEnd == None && dragStatus == Available
    {
      this.currentUserId := currentUserId;
      this.existing := existing;
      isDragging := false;
      dragStart := None;
      dragEnd := None;
      dragStatus := Available;
    }

    /** `handleMouseDown`. */
    method MouseDown(slot: int, status: AvailabilityStatus)
      modifies this
      ensures isDragging && dragStart == Some(slot) && dragEnd == Some(slot) && dragStatus == status
    {
      isDragging := true;
      dragStart := Some(slot);
      dragEnd := Some(slot);
      dragStatus := status;
    }

    /** `handleMouseEnter`: move the far end of a drag under way. */
    method MouseEnter(slot: int)
      modifies this
      ensures isDragging == old(isDragging) && dragStart == old(dragStart) && dragStatus == old(dragStatus)
      ensures dragEnd == if old(isDragging) then Some(slot) else old(dragEnd)
    {
      if isDragging {
        dragEnd := Some(slot);
      }
    }

    /** The cell's press handler: only the current user's cells start a drag, and
        always with "available". */
    method CellMouseDown(userId: string, slot: int)
      modifies this
      ensures userId == currentUserId ==>
        isDragging && dragStart == Some(slot) && dragEnd == Some(slot) && dragStatus == Available
      ensures userId != currentUserId ==>
        isDragging == old(isDragging) && dragStart == old(dragStart) && dragEnd == old(dragEnd)
        && dragStatus == old(dragStatus)
    {
      if userId == currentUserId {
        MouseDown(slot, Available);
      }
    }

    /** The cell's enter handler: only the current user's cells extend a drag. */
    method CellMouseEnter(userId: string, slot: int)
      modifies this
      ensures isDragging == old(isDragging) && dragStart == old(dragStart) && dragStatus == old(dragStatus)
      ensures dragEnd == if old(isDragging) && userId == currentUserId then Some(slot) else old(dragEnd)
    {
      if userId == currentUserId {
        MouseEnter(slot);
      }
    }

    /** `handleMouseUp`: a drag with both ends ends and its range is submitted; the
        ends are cleared once the action succeeds, and are left in place when it
        throws. Without such a drag nothing happens. The result is the action's
        outcome, None when nothing was submitted. */
    method MouseUp(db: Database, user: Option<AuthUser>) returns (submitted: Option<Outcome>)
      requires db.Valid()
      modifies this, db
      ensures db.Valid()
      ensures dragStatus == old(dragStatus)
      ensures !(old(isDragging) && old(dragStart).Some? && old(dragEnd).Some?) ==>
        && submitted == None
        && isDragging == old(isDragging) && dragStart == old(dragStart) && dragEnd == old(dragEnd)
        && db.tents == old(db.tents) && db.profiles == old(db.profiles) && db.availabilities == old(db.availabilities)
      ensures old(isDragging) && old(dragStart).Some? && old(dragEnd).Some? ==>
        && submitted.Some?
        && !isDragging
        && (submitted.value.Done? ==> dragStart == None && dragEnd == None)
        && (submitted.value.Failed? ==> dragStart == old(dragStart) && dragEnd == old(dragEnd))
        && db.tents == old(db.tents) && db.profiles == old(db.profiles)
        && var range := SubmittedRange(old(dragStart).value, old(dragEnd).value);
           (user.None? ==> submitted.value == Failed(Unauthorized) && db.availabilities == old(db.availabilities))
           && (user.Some? && ProfileTent(old(db.profiles), user.value.id).None? ==>
                 submitted.value == Failed(NoTentFound) && db.availabilities == old(db.availabilities))
           && (user.Some? && ProfileTent(old(db.profiles), user.value.id).Some? ==>
                 submitted.value == Done
                 && db.availabilities == old(db.availabilities)
                      + [AvailabilityRow(user.value.id, ProfileTent(old(db.profiles), user.value.id).value,
                                         range.0, range.1, old(dragStatus))])
    {
      if !isDragging || dragStart.None? || dragEnd.None? {
        return None;
      }
      isDragging := false;
      var range := SubmittedRange(dragStart.value, dragEnd.value);
      var r := db.UpdateAvailability(user, range.0, range.1, dragStatus);
      submitted := Some(r);
      if r.Failed? {
        return;
      }
      dragStart := None;
      dragEnd := None;
    }

    /** `getSlotStatus`: the drag status over the current user's previewed run,
        otherwise the stored status. */
    function SlotStatus(userId: string, slot: int): (r: Option<AvailabilityStatus>)
      reads this
      ensures userId != currentUserId ==> r == StoredStatus(existing, userId, slot)
      ensures !isDragging ==> r == StoredStatus(existing, userId, slot)
      ensures isDragging && userId == currentUserId && dragStart.Some? && dragEnd.Some?
              && DragLow(dragStart.value, dragEnd.value) <= slot <= DragHigh(dragStart.value, dragEnd.value)
              ==> r == Some(dragStatus)
      ensures !(isDragging && userId == currentUserId && dragStart.Some? && dragEnd.Some?
                && DragLow(dragStart.value, dragEnd.value) <= slot <= DragHigh(dragStart.value, dragEnd.value))
              ==> r == StoredStatus(existing, userId, slot)
    {
      if isDragging && userId == currentUserId && dragStart.Some? && dragEnd.Some?
         && DragLow(dragStart.value, dragEnd.value) <= slot <= DragHigh(dragStart.value, dragEnd.value)
      then Some(dragStatus)
      else StoredStatus(existing, userId, slot)
    }
  }
}
