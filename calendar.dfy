/** The slot cards of web/src/components/dashboard/CalendarScheduler.tsx: staffing
    flags, the members shown on a card, their clashes with unavailability entries
    and the card's hour heading. */
module Calendar {
  import opened Seqs
  import opened Text
  import opened Types
  import opened Staffing
  import opened Dashboard

  /** `isUnderstaffed`, `isFullyStaffed`, `isOverstaffed`. */
  datatype StaffingFlags = StaffingFlags(understaffed: bool, fullyStaffed: bool, overstaffed: bool)

  function SlotStaffing(slot: TimeSlot): StaffingFlags
  {
    var c := CompareRatioToOne(|slot.assignedUsers|, slot.required);
    StaffingFlags(c == Below, c == Equal, c == Above)
  }

  /** For a positive requirement exactly one flag is up, the one the head count
      calls for; 0/0 raises none, n/0 only "overstaffed", a negative requirement
      only "understaffed". */
  lemma SlotStaffingCases(slot: TimeSlot)
    ensures var f := SlotStaffing(slot); var a := |slot.assignedUsers|; var r := slot.required;
      && (r > 0 ==> f == StaffingFlags(a < r, a == r, a > r))
      && (r > 0 ==> (if f.understaffed then 1 else 0) + (if f.fullyStaffed then 1 else 0)
                    + (if f.overstaffed then 1 else 0) == 1)
      && (r == 0 && a == 0 ==> f == StaffingFlags(false, false, false))
      && (r == 0 && a > 0 ==> f == StaffingFlags(false, false, true))
      && (r < 0 ==> f == StaffingFlags(true, false, false))
  {
  }

  predicate IsAssignedTo(slot: TimeSlot, m: Member)
  {
    m.id in slot.assignedUsers
  }

  /** `assignedMembers`: the members on the slot, in the order of the member list. */
  function AssignedMembers(slot: TimeSlot, members: seq<Member>): seq<Member>
  {
    Filter((m: Member) => IsAssignedTo(slot, m), members)
  }

  lemma AssignedMembersSpec(slot: TimeSlot, members: seq<Member>)
    ensures Subsequence(AssignedMembers(slot, members), members)
    ensures forall i :: 0 <= i < |members| ==>
      (members[i] in AssignedMembers(slot, members) <==> members[i].id in slot.assignedUsers)
  {
    FilterIsSubsequence((m: Member) => IsAssignedTo(slot, m), members);
  }

  /** `parseInt(t.split(":")[0])`: the hour an entry's text begins with. */
  function EntryHour(t: string): Option<int>
  {
    ParseInt(BeforeFirst(t, ':'))
  }

  /** The test shared by `hasConflicts`, `hasConflict` and `conflict`; a NaN hour
      makes both comparisons false. */
  predicate EntryConflicts(slotHour: int, u: Unavailability)
  {
    var startHour := EntryHour(u.start);
    var endHour := EntryHour(u.end);
    startHour.Some? && endHour.Some? && startHour.value <= slotHour < endHour.value
  }

  /** `hasConflict` of one member; false when the member has no list. */
  predicate MemberHasConflict(slotHour: int, m: Member)
  {
    m.unavailable.Some? && Any((u: Unavailability) => EntryConflicts(slotHour, u), m.unavailable.value)
  }

  /** `conflict` of one member: the first clashing entry. */
  function FirstConflict(slotHour: int, m: Member): (r: Option<Unavailability>)
    ensures r.Some? <==> MemberHasConflict(slotHour, m)
    ensures r.Some? ==> EntryConflicts(slotHour, r.value)
    ensures r.Some? ==> exists k :: 0 <= k < |m.unavailable.value| && m.unavailable.value[k] == r.value
                                    && forall j :: 0 <= j < k ==> !EntryConflicts(slotHour, m.unavailable.value[j])
  {
    match m.unavailable
    case None => None
    case Some(list) => Find((u: Unavailability) => EntryConflicts(slotHour, u), list)
  }

  /** `hasConflicts`: some member on the slot has a clashing entry. */
  predicate HasConflicts(slot: TimeSlot, members: seq<Member>)
  {
    Any((m: Member) => MemberHasConflict(slot.hour, m), AssignedMembers(slot, members))
  }

  /** The card warns exactly when one of the members in the slot's list clashes. */
  lemma HasConflictsSpec(slot: TimeSlot, members: seq<Member>)
    ensures HasConflicts(slot, members) <==>
      exists i :: 0 <= i < |members| && members[i].id in slot.assignedUsers && MemberHasConflict(slot.hour, members[i])
  {
    AssignedMembersSpec(slot, members);
    var shown := AssignedMembers(slot, members);
    assert forall m :: m in shown <==> m in members && m.id in slot.assignedUsers;
  }

  /** On "HH:MM" texts an entry covers the slot hours from its start hour up to,
      but not including, its end hour; the minutes play no part. */
  lemma EntryConflictsOnClockTexts(slotHour: int, s: nat, sm: nat, e: nat, em: nat, reason: string)
    requires s < 100 && sm < 100 && e < 100 && em < 100
    ensures EntryConflicts(slotHour, Unavailability(ClockText(s, sm), ClockText(e, em), reason))
            <==> s <= slotHour < e
  {
    ClockTextParses(s, sm);
    ClockTextParses(e, em);
  }

  /** A four-digit number without a leading zero is at least 1000. */
  lemma FourDigitsValue(y: string)
    requires |y| == 4 && AllDigits(y) && y[0] != '0'
    ensures DigitsValue(y) >= 1000
  {
    assert DigitsValue(y[..1]) >= 1 by { assert y[..1][..0] == []; }
    assert DigitsValue(y[..2]) >= 10 by { assert y[..2][..1] == y[..1]; }
    assert DigitsValue(y[..3]) >= 100 by { assert y[..3][..2] == y[..2]; }
    assert y[..|y| - 1] == y[..3];
  }

  /** The dashboard fills entries with ISO timestamps "YYYY-MM-DDTHH:MM:SS.sssZ";
      read this way their "hour" is the year, so no slot of the day ever clashes
      with them, whatever their end. */
  lemma IsoEntriesNeverConflict(slotHour: int, year: string, rest: string, end: string, reason: string)
    requires slotHour < 1000
    requires |year| == 4 && AllDigits(year) && year[0] != '0'
    requires rest != [] && rest[0] == '-'
    ensures EntryHour(year + rest) == Some(DigitsValue(year))
    ensures !EntryConflicts(slotHour, Unavailability(year + rest, end, reason))
  {
    FourDigitsValue(year);
    var before := BeforeFirst(rest, ':');
    BeforeFirstAfterPrefix(year, ':', rest);
    assert before != [] && before[0] == '-' by { assert rest[0] != ':'; }
    ParseIntOfDigits(year, before);
  }

  /** `formatTime`: the slot's hour on the 12-hour clock, minutes shown as ":00". */
  function SlotHeading(time: string): string
  {
    var hour := EntryHour(time);
    if hour == Some(0) then "12:00 AM"
    else if hour.Some? && hour.value < 12 then IntToString(hour.value) + ":00 AM"
    else if hour == Some(12) then "12:00 PM"
    else if hour.Some? then IntToString(hour.value - 12) + ":00 PM"
    else "NaN:00 PM"
  }

  /** On the slot times the dashboard generates the heading is the 12-hour clock
      hour with ":00", whatever the minute. */
  lemma SlotHeadingOfClockText(hour: nat, minute: nat)
    requires hour < 24 && minute < 60
    ensures hour == 0 ==> SlotHeading(ClockText(hour, minute)) == "12:00 AM"
    ensures 1 <= hour <= 11 ==> SlotHeading(ClockText(hour, minute)) == NatToString(hour) + ":00 AM"
    ensures hour == 12 ==> SlotHeading(ClockText(hour, minute)) == "12:00 PM"
    ensures 13 <= hour ==> SlotHeading(ClockText(hour, minute)) == NatToString(hour - 12) + ":00 PM"
  {
    ClockTextParses(hour, minute);
    SlotHeadingOfHour(ClockText(hour, minute), hour);
  }

  /** The heading depends only on the number the text before ':' parses to. */
  lemma SlotHeadingOfHour(time: string, hour: nat)
    requires ParseInt(BeforeFirst(time, ':')) == Some(hour)
    ensures hour == 0 ==> SlotHeading(time) == "12:00 AM"
    ensures 1 <= hour <= 11 ==> SlotHeading(time) == NatToString(hour) + ":00 AM"
    ensures hour == 12 ==> SlotHeading(time) == "12:00 PM"
    ensures 13 <= hour ==> SlotHeading(time) == NatToString(hour - 12) + ":00 PM"
  {
    assert EntryHour(time) == Some(hour);
    if hour == 0 {
      assert SlotHeading(time) == "12:00 AM";
    } else if hour <= 11 {
      assert IntToString(hour) == NatToString(hour);
    } else if hour == 12 {
      assert SlotHeading(time) == "12:00 PM";
    } else {
      assert IntToString(hour - 12) == NatToString(hour - 12);
    }
  }
}
