/** The live status page of web/src/components/dashboard/SummaryView.tsx: the slot
    the wall clock falls in, the one after it, who is on them, whether the tent is
    safe and the viewer's next shift of the day. The clock is a parameter. */
module Summary {
  import opened Seqs
  import opened Types
  import opened Dashboard
  import opened Spreadsheet

  /** `getCurrentSlotIndex`: four slots an hour. */
  function CurrentSlotIndex(hour: int, minute: int): (i: int)
    requires 0 <= hour < 24 && 0 <= minute < 60
    ensures 0 <= i < SlotsPerDay
    ensures 15 * i <= 60 * hour + minute < 15 * (i + 1)
  {
    hour * 4 + minute / 15
  }

  /** `timeSlots[i] || timeSlots[0]`: None when there are no slots at all (the page
      then fails on the missing slot). */
  function SlotOrFirst(slots: seq<TimeSlot>, i: int): (r: Option<TimeSlot>)
    ensures r.None? <==> slots == []
    ensures 0 <= i < |slots| ==> r == Some(slots[i])
    ensures !(0 <= i < |slots|) && slots != [] ==> r == Some(slots[0])
  {
    if 0 <= i < |slots| then Some(slots[i])
    else if slots != [] then Some(slots[0])
    else None
  }

  function CurrentSlot(slots: seq<TimeSlot>, index: int): Option<TimeSlot>
  {
    SlotOrFirst(slots, index)
  }

  function NextSlot(slots: seq<TimeSlot>, index: int): Option<TimeSlot>
  {
    SlotOrFirst(slots, index + 1)
  }

  /** On a full day of slots, the current slot is the one at the index and the next
      one wraps from the last slot of the day back to the first. */
  lemma CurrentAndNextOnFullDay(slots: seq<TimeSlot>, hour: int, minute: int)
    requires |slots| == SlotsPerDay
    requires 0 <= hour < 24 && 0 <= minute < 60
    ensures var i := CurrentSlotIndex(hour, minute);
      && CurrentSlot(slots, i) == Some(slots[i])
      && NextSlot(slots, i) == Some(slots[(i + 1) % SlotsPerDay])
  {
  }

  function FindMember(members: seq<Member>, id: string): Option<Member>
  {
    Find((m: Member) => m.id == id, members)
  }

  function MemberIds(ms: seq<Member>): seq<string>
  {
    Map((m: Member) => m.id, ms)
  }

  /** `getMemberDetails`: the member record of each id, in the order of the ids;
      ids naming no member are dropped. */
  function MemberDetails(members: seq<Member>, ids: seq<string>): (r: seq<Member>)
    ensures |r| <= |ids|
    ensures forall j :: 0 <= j < |r| ==> r[j] in members
  {
    if ids == [] then []
    else
      match FindMember(members, ids[0])
      case None => MemberDetails(members, ids[1..])
      case Some(m) => [m] + MemberDetails(members, ids[1..])
  }

  /** The ids of the details are the ids with a member, in the order given; every
      id with a member is among them, with that member's first record. */
  lemma {:induction false} MemberDetailsSpec(members: seq<Member>, ids: seq<string>)
    ensures Subsequence(MemberIds(MemberDetails(members, ids)), ids)
    ensures forall j :: 0 <= j < |MemberDetails(members, ids)| ==>
      FindMember(members, MemberDetails(members, ids)[j].id) == Some(MemberDetails(members, ids)[j])
    ensures forall i :: 0 <= i < |ids| && FindMember(members, ids[i]).Some? ==>
      FindMember(members, ids[i]).value in MemberDetails(members, ids)
  {
    if ids != [] {
      MemberDetailsSpec(members, ids[1..]);
      var rest := MemberDetails(members, ids[1..]);
      assert forall i :: 1 <= i < |ids| ==> ids[i] == ids[1..][i - 1];
      match FindMember(members, ids[0])
      case None =>
        SubsequenceOfTail(MemberIds(rest), ids[0], ids[1..]);
        assert [ids[0]] + ids[1..] == ids;
      case Some(m) =>
        var r := [m] + rest;
        assert MemberIds(r) == [m.id] + MemberIds(rest);
        assert m.id == ids[0];
        assert MemberIds(r)[1..] == MemberIds(rest);
    }
  }

  /** A member is found for the id. */
  predicate IdFound(members: seq<Member>, id: string)
  {
    FindMember(members, id).Some?
  }

  /** Exactly the ids with a member survive, each as often as it is given: an id
      listed twice (a user on two overlapping shifts) gives two entries. */
  lemma {:induction false} MemberDetailsExact(members: seq<Member>, ids: seq<string>)
    ensures MemberIds(MemberDetails(members, ids)) == Filter((id: string) => IdFound(members, id), ids)
  {
    if ids != [] {
      MemberDetailsExact(members, ids[1..]);
      var rest := MemberDetails(members, ids[1..]);
      match FindMember(members, ids[0])
      case None =>
      case Some(m) =>
        assert m.id == ids[0];
        assert ([m] + rest)[1..] == rest;
    }
  }

  /** When every id names a member, none is dropped. */
  lemma {:induction false} MemberDetailsAllFound(members: seq<Member>, ids: seq<string>)
    requires forall i :: 0 <= i < |ids| ==> FindMember(members, ids[i]).Some?
    ensures |MemberDetails(members, ids)| == |ids|
  {
    if ids != [] {
      MemberDetailsAllFound(members, ids[1..]);
    }
  }

  /** `isSafe`: at least as many present as required. */
  predicate IsSafe(slot: TimeSlot)
  {
    |slot.assignedUsers| >= slot.required
  }

  /** The summary's verdict and the grid's agree for every requirement that is not
      negative: safe exactly when the row is not understaffed. */
  lemma IsSafeAgreesWithGrid(slot: TimeSlot)
    requires slot.required >= 0
    ensures IsSafe(slot) <==> RowStaffingStatus(slot) != Understaffed
  {
    RowStaffingStatusCases(slot);
  }

  /** `timeSlots.slice(i)` for i >= 0. */
  function SliceFrom(slots: seq<TimeSlot>, i: nat): (r: seq<TimeSlot>)
    ensures i <= |slots| ==> r == slots[i..]
    ensures i > |slots| ==> r == []
  {
    if i <= |slots| then slots[i..] else []
  }

  predicate HasMember(member: string, slot: TimeSlot)
  {
    member in slot.assignedUsers
  }

  /** The first slot from the index on where the member is assigned. */
  function NextPersonalSlot(slots: seq<TimeSlot>, index: nat, member: string): Option<TimeSlot>
  {
    Find((s: TimeSlot) => HasMember(member, s), SliceFrom(slots, index))
  }

  lemma NextPersonalSlotSpec(slots: seq<TimeSlot>, index: nat, member: string)
    ensures var r := NextPersonalSlot(slots, index, member);
      && (r.None? <==> forall k :: index <= k < |slots| ==> member !in slots[k].assignedUsers)
      && (r.Some? ==> exists k :: index <= k < |slots| && slots[k] == r.value && member in slots[k].assignedUsers
                                  && forall j :: index <= j < k ==> member !in slots[j].assignedUsers)
  {
    var tail := SliceFrom(slots, index);
    var r := NextPersonalSlot(slots, index, member);
    assert forall k :: 0 <= k < |tail| ==> tail[k] == slots[index + k];
    if r.Some? {
      var k :| 0 <= k < |tail| && tail[k] == r.value && HasMember(member, tail[k])
        && forall j :: 0 <= j < k ==> !HasMember(member, tail[j]);
      assert forall j :: index <= j < index + k ==> slots[j] == tail[j - index];
      assert slots[index + k] == r.value;
    } else {
      assert forall k :: index <= k < |slots| ==> slots[k] == tail[k - index];
    }
  }

  /** `nextPersonalShiftDisplay`; `clock` stands for the locale time formatting of
      an hour and a minute. */
  function NextPersonalShiftDisplay(slots: seq<TimeSlot>, index: nat, member: string,
                                    clock: (int, int) -> string): (r: string)
    ensures r == "No more shifts today" <==>
      forall k :: index <= k < |slots| ==> member !in slots[k].assignedUsers
  {
    NextPersonalSlotSpec(slots, index, member);
    match NextPersonalSlot(slots, index, member)
    case None => "No more shifts today"
    case Some(s) =>
      var r := "Today at " + clock(s.hour, s.minute);
      assert r[0] != "No more shifts today"[0];
      r
  }
}
