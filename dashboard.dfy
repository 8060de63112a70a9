/** The data preparation of the desktop dashboard
    (web/src/components/dashboard/DesktopDashboard.tsx): the day's grid of 96
    fifteen-minute slots, the members as the views see them, and the shifts the
    selected member may offer for trade. Times are integer minutes; `dayStart` is
    the midnight of the selected date. */
module Dashboard {
  import opened Seqs
  import opened Text
  import opened Types

  /** A row of the `shifts` table. */
  datatype Shift = Shift(id: string, startTime: int, endTime: int, requiredCount: int)

  /** A row of the `assignments` table. */
  datatype Assignment = Assignment(shiftId: string, userId: string)

  /** A row of the `profiles` table, as far as the dashboard reads it. */
  datatype ProfileRow = ProfileRow(id: string, fullName: Option<string>)

  const SlotsPerDay: nat := 96
  const SlotLength: nat := 15

  /** `hh:mm`, both parts zero-padded to two digits. */
  function ClockText(hour: nat, minute: nat): string
  {
    TwoDigits(hour) + ":" + TwoDigits(minute)
  }

  predicate IsNighttime(hour: int) { hour >= 1 && hour < 7 }

  /** The phase's requirement for a slot no shift covers. */
  function DefaultRequirement(settings: PhaseSettings, hour: int): int
  {
    if IsNighttime(hour) then settings.nighttimeRequirement else settings.daytimeRequirement
  }

  /** A shift covers a slot when the slot starts inside the half-open [start, end). */
  predicate IsActive(s: Shift, slotStart: int)
  {
    s.startTime <= slotStart && s.endTime > slotStart
  }

  function ActiveShifts(shifts: seq<Shift>, slotStart: int): seq<Shift>
  {
    Filter((s: Shift) => IsActive(s, slotStart), shifts)
  }

  predicate HasShiftId(active: seq<Shift>, shiftId: string)
  {
    Any((s: Shift) => s.id == shiftId, active)
  }

  /** The users of the assignments that belong to an active shift, in assignment order. */
  function AssignedUserIds(assignments: seq<Assignment>, active: seq<Shift>): seq<string>
  {
    Map((a: Assignment) => a.userId, Filter((a: Assignment) => HasShiftId(active, a.shiftId), assignments))
  }

  /** The first active shift's `requiredCount`, else the phase default. */
  function SlotRequirement(active: seq<Shift>, fallback: int): int
  {
    if |active| > 0 then active[0].requiredCount else fallback
  }

  /** The slot `generateTimeSlots` pushes for one hour and minute. */
  function SlotAt(settings: PhaseSettings, shifts: seq<Shift>, assignments: seq<Assignment>,
                  dayStart: int, hour: nat, minute: nat): TimeSlot
  {
    var active := ActiveShifts(shifts, dayStart + 60 * hour + minute);
    TimeSlot(
      ClockText(hour, minute),
      hour,
      minute,
      AssignedUserIds(assignments, active),
      [],
      SlotRequirement(active, DefaultRequirement(settings, hour)),
      IsNighttime(hour))
  }

  /** The slot at position i of the day: hour i / 4, minute 15 * (i % 4). */
  function SlotOfIndex(settings: PhaseSettings, shifts: seq<Shift>, assignments: seq<Assignment>,
                       dayStart: int, i: nat): TimeSlot
  {
    SlotAt(settings, shifts, assignments, dayStart, i / 4, 15 * (i % 4))
  }

  /** `generateTimeSlots`: two nested loops that push one slot per quarter hour;
      the inner loop, over the minutes of one hour, is PushHour. */
  method GenerateTimeSlots(settings: PhaseSettings, shifts: seq<Shift>, assignments: seq<Assignment>, dayStart: int)
    returns (slots: seq<TimeSlot>)
    ensures |slots| == SlotsPerDay
    ensures forall i :: 0 <= i < |slots| ==> slots[i] == SlotOfIndex(settings, shifts, assignments, dayStart, i)
    ensures forall i :: 0 <= i < |slots| ==> 60 * slots[i].hour + slots[i].minute == 15 * i
  {
    slots := [];
    var hour := 0;
    while hour < 24
      invariant 0 <= hour <= 24
      invariant |slots| == 4 * hour
      invariant forall i :: 0 <= i < |slots| ==> slots[i] == SlotOfIndex(settings, shifts, assignments, dayStart, i)
    {
      slots := PushHour(settings, shifts, assignments, dayStart, slots, hour);
      hour := hour + 1;
    }
    forall i | 0 <= i < |slots|
      ensures 60 * slots[i].hour + slots[i].minute == 15 * i
    {
      SlotOfIndexFields(settings, shifts, assignments, dayStart, i);
    }
  }

  /** The inner loop of `generateTimeSlots`: append the four quarter-hour slots of
      one hour to the slots of the hours before it. */
  method PushHour(settings: PhaseSettings, shifts: seq<Shift>, assignments: seq<Assignment>, dayStart: int,
                  slots0: seq<TimeSlot>, hour: nat)
    returns (slots: seq<TimeSlot>)
    requires |slots0| == 4 * hour
    requires forall i :: 0 <= i < |slots0| ==> slots0[i] == SlotOfIndex(settings, shifts, assignments, dayStart, i)
    ensures |slots| == 4 * hour + 4
    ensures forall i :: 0 <= i < |slots| ==> slots[i] == SlotOfIndex(settings, shifts, assignments, dayStart, i)
  {
    slots := slots0;
    var minute := 0;
    ghost var quarter := 0;
    while minute < 60
      invariant 0 <= quarter <= 4 && minute == 15 * quarter
      invariant |slots| == 4 * hour + quarter
      invariant forall i :: 0 <= i < |slots| ==> slots[i] == SlotOfIndex(settings, shifts, assignments, dayStart, i)
    {
      var slot := SlotAt(settings, shifts, assignments, dayStart, hour, minute);
      SlotOfIndexAt(settings, shifts, assignments, dayStart, hour, quarter, minute);
      PushNextSlot(settings, shifts, assignments, dayStart, slots, slot);
      slots := slots + [slot];
      minute := minute + 15;
      quarter := quarter + 1;
    }
  }

  /** Pushing the slot of the next position keeps every slot at its position. */
  lemma PushNextSlot(settings: PhaseSettings, shifts: seq<Shift>, assignments: seq<Assignment>,
                     dayStart: int, slots: seq<TimeSlot>, slot: TimeSlot)
    requires forall i :: 0 <= i < |slots| ==> slots[i] == SlotOfIndex(settings, shifts, assignments, dayStart, i)
    requires slot == SlotOfIndex(settings, shifts, assignments, dayStart, |slots|)
    ensures forall i :: 0 <= i < |slots + [slot]| ==>
      (slots + [slot])[i] == SlotOfIndex(settings, shifts, assignments, dayStart, i)
  {
  }

  /** The slot pushed for a quarter hour is the one at its position of the day. */
  lemma SlotOfIndexAt(settings: PhaseSettings, shifts: seq<Shift>, assignments: seq<Assignment>,
                      dayStart: int, hour: nat, quarter: nat, minute: nat)
    requires quarter < 4 && minute == 15 * quarter
    ensures SlotOfIndex(settings, shifts, assignments, dayStart, 4 * hour + quarter)
            == SlotAt(settings, shifts, assignments, dayStart, hour, minute)
  {
    SlotIndexParts(hour, quarter);
  }

  /** Slot i starts 15 * i minutes into the day, at hour i / 4 and minute
      15 * (i % 4), and carries that time's text and night flag and no availability. */
  lemma SlotOfIndexFields(settings: PhaseSettings, shifts: seq<Shift>, assignments: seq<Assignment>,
                          dayStart: int, i: nat)
    ensures var s := SlotOfIndex(settings, shifts, assignments, dayStart, i);
      && s.hour == i / 4 && s.minute == 15 * (i % 4)
      && s.time == ClockText(i / 4, 15 * (i % 4))
      && s.isNighttime == IsNighttime(i / 4) && s.availability == []
      && 60 * s.hour + s.minute == 15 * i
  {
    SlotIndexParts(i / 4, i % 4);
  }

  lemma SlotIndexParts(hour: nat, quarter: nat)
    requires quarter < 4
    ensures (4 * hour + quarter) / 4 == hour && (4 * hour + quarter) % 4 == quarter
    ensures 60 * hour + 15 * quarter == 15 * (4 * hour + quarter)
  {
  }

  /** Slot times read back: the text before ':' parses to the hour and the text
      after it to the minute, and the whole is five characters. */
  lemma ClockTextParses(hour: nat, minute: nat)
    requires hour < 100 && minute < 100
    ensures |ClockText(hour, minute)| == 5 && ClockText(hour, minute)[2] == ':'
    ensures '-' !in ClockText(hour, minute)
    ensures ParseInt(BeforeFirst(ClockText(hour, minute), ':')) == Some(hour)
    ensures ParseInt(SecondField(ClockText(hour, minute), ':').value) == Some(minute)
    ensures forall i :: 0 <= i < 5 ==> ClockText(hour, minute)[i] == ':' || IsDigit(ClockText(hour, minute)[i])
  {
    var h, m := TwoDigits(hour), TwoDigits(minute);
    TwoDigitsShape(hour);
    TwoDigitsShape(minute);
    ClockShape(h, m);
    ParseIntOfDigits(h, []);
    ParseIntOfDigits(m, []);
    assert h + [] == h && m + [] == m;
  }

  /** Two two-digit parts joined by ':' split back into the parts. */
  lemma ClockShape(h: string, m: string)
    requires |h| == 2 && |m| == 2 && AllDigits(h) && AllDigits(m)
    ensures |h + ":" + m| == 5 && (h + ":" + m)[2] == ':' && '-' !in h + ":" + m
    ensures BeforeFirst(h + ":" + m, ':') == h
    ensures SecondField(h + ":" + m, ':') == Some(m)
    ensures forall i :: 0 <= i < 5 ==> (h + ":" + m)[i] == ':' || IsDigit((h + ":" + m)[i])
  {
    assert ':' !in h && ':' !in m;
    SplitAtFirst(h, ':', m);
    SplitFirstAbsent(m, ':');
  }

  lemma {:induction false} SplitFirstAbsent(s: string, c: char)
    requires c !in s
    ensures BeforeFirst(s, c) == s
  {
    if s != [] {
      SplitFirstAbsent(s[1..], c);
      assert [s[0]] + s[1..] == s;
    }
  }

  /** A shift is active for a slot exactly when the slot starts in its half-open range. */
  lemma ActiveShiftsContain(shifts: seq<Shift>, slotStart: int, s: Shift)
    ensures s in ActiveShifts(shifts, slotStart) <==> s in shifts && s.startTime <= slotStart < s.endTime
  {
    if s in shifts && IsActive(s, slotStart) {
      var k :| 0 <= k < |shifts| && shifts[k] == s;
    }
  }

  /** A slot no shift covers gets the phase's day or night default and nobody assigned. */
  lemma UncoveredSlot(settings: PhaseSettings, shifts: seq<Shift>, assignments: seq<Assignment>, t: int, hour: int)
    requires forall k :: 0 <= k < |shifts| ==> !IsActive(shifts[k], t)
    ensures ActiveShifts(shifts, t) == []
    ensures SlotRequirement(ActiveShifts(shifts, t), DefaultRequirement(settings, hour))
      == if 1 <= hour < 7 then settings.nighttimeRequirement else settings.daytimeRequirement
    ensures AssignedUserIds(assignments, ActiveShifts(shifts, t)) == []
  {
    FilterNonePass((s: Shift) => IsActive(s, t), shifts);
    FilterNonePass((a: Assignment) => HasShiftId([], a.shiftId), assignments);
  }

  /** A covered slot's requirement is that of the first shift, in `shifts` order, that covers it. */
  lemma CoveredSlotRequirement(shifts: seq<Shift>, t: int, k: nat, fallback: int)
    requires k < |shifts| && IsActive(shifts[k], t)
    requires forall j :: 0 <= j < k ==> !IsActive(shifts[j], t)
    ensures SlotRequirement(ActiveShifts(shifts, t), fallback) == shifts[k].requiredCount
  {
    FilterFirst((s: Shift) => IsActive(s, t), shifts, k);
  }

  /** A user is listed in a slot exactly when one of their assignments belongs to a
      shift that covers the slot. */
  lemma AssignedUserIdsContain(assignments: seq<Assignment>, active: seq<Shift>, u: string)
    ensures u in AssignedUserIds(assignments, active) <==>
      exists i, j :: 0 <= i < |assignments| && 0 <= j < |active| &&
        assignments[i].userId == u && active[j].id == assignments[i].shiftId
  {
    var keep := (a: Assignment) => HasShiftId(active, a.shiftId);
    var kept := Filter(keep, assignments);
    if u in AssignedUserIds(assignments, active) {
      var k :| 0 <= k < |kept| && kept[k].userId == u;
      assert kept[k] in assignments && keep(kept[k]);
    }
    if exists i, j :: 0 <= i < |assignments| && 0 <= j < |active| &&
        assignments[i].userId == u && active[j].id == assignments[i].shiftId {
      var i, j :| 0 <= i < |assignments| && 0 <= j < |active| &&
        assignments[i].userId == u && active[j].id == assignments[i].shiftId;
      assert keep(assignments[i]);
      var k :| 0 <= k < |kept| && kept[k] == assignments[i];
      assert AssignedUserIds(assignments, active)[k] == u;
    }
  }

  /** The slot's user list in order: no assignments list nobody, and one more
      assignment adds its user at the end exactly when its shift is active, so
      users appear in assignment order, repeated once per assignment. */
  lemma AssignedUserIdsInOrder(assignments: seq<Assignment>, x: Assignment, active: seq<Shift>)
    ensures AssignedUserIds([], active) == []
    ensures AssignedUserIds(assignments + [x], active) ==
      AssignedUserIds(assignments, active) + (if HasShiftId(active, x.shiftId) then [x.userId] else [])
  {
    var keep := (a: Assignment) => HasShiftId(active, a.shiftId);
    var userId := (a: Assignment) => a.userId;
    FilterAppend(keep, assignments, x);
    MapAppend(userId, Filter(keep, assignments), if keep(x) then [x] else []);
  }

  /** `m.fullName || "Unknown"`: a missing or empty name shows as "Unknown". */
  function DisplayName(fullName: Option<string>): string
  {
    if fullName.Some? && fullName.value != "" then fullName.value else "Unknown"
  }

  predicate IsUnavailableRowOf(a: AvailabilityRow, userId: string)
  {
    a.userId == userId && a.status == Unavailable
  }

  /** One `unavailable` entry; `iso` stands for `new Date(t).toISOString()`. */
  function UnavailableEntry(a: AvailabilityRow, iso: int -> string): Unavailability
  {
    Unavailability(iso(a.startTime), iso(a.endTime), StatusText(a.status))
  }

  function UnavailableRows(userId: string, availabilities: seq<AvailabilityRow>): seq<AvailabilityRow>
  {
    Filter((a: AvailabilityRow) => IsUnavailableRowOf(a, userId), availabilities)
  }

  /** One element of `uiMembers`. */
  function UiMember(p: ProfileRow, availabilities: seq<AvailabilityRow>, iso: int -> string): Member
  {
    Member(p.id, DisplayName(p.fullName), "#3B82F6",
      Some(Map((a: AvailabilityRow) => UnavailableEntry(a, iso), UnavailableRows(p.id, availabilities))))
  }

  /** `uiMembers`: the profiles mapped to the members the views use. */
  function UiMembers(profiles: seq<ProfileRow>, availabilities: seq<AvailabilityRow>, iso: int -> string): seq<Member>
  {
    Map((p: ProfileRow) => UiMember(p, availabilities, iso), profiles)
  }

  /** Each mapped member keeps the profile's id and position, always has an
      `unavailable` list, and that list holds one entry per "unavailable" row of
      that member, in row order, and nothing else. */
  lemma UiMembersSpec(profiles: seq<ProfileRow>, availabilities: seq<AvailabilityRow>, iso: int -> string, i: nat)
    requires i < |profiles|
    ensures var ms := UiMembers(profiles, availabilities, iso);
      var rows := UnavailableRows(profiles[i].id, availabilities);
      && |ms| == |profiles|
      && ms[i].id == profiles[i].id
      && ms[i].name == DisplayName(profiles[i].fullName)
      && ms[i].unavailable.Some?
      && |ms[i].unavailable.value| == |rows|
      && (forall k :: 0 <= k < |rows| ==>
            rows[k] in availabilities && IsUnavailableRowOf(rows[k], profiles[i].id)
            && ms[i].unavailable.value[k] == Unavailability(iso(rows[k].startTime), iso(rows[k].endTime), "unavailable"))
      && (forall a :: a in availabilities && IsUnavailableRowOf(a, profiles[i].id) ==> a in rows)
      && Subsequence(rows, availabilities)
  {
    var keep := (a: AvailabilityRow) => IsUnavailableRowOf(a, profiles[i].id);
    var rows := UnavailableRows(profiles[i].id, availabilities);
    FilterIsSubsequence(keep, availabilities);
    forall a | a in availabilities && IsUnavailableRowOf(a, profiles[i].id) ensures a in rows {
      var k :| 0 <= k < |availabilities| && availabilities[k] == a;
      assert keep(availabilities[k]);
    }
    forall k | 0 <= k < |rows| ensures rows[k] in availabilities && IsUnavailableRowOf(rows[k], profiles[i].id) {
      assert keep(rows[k]);
    }
  }

  /** The `availableShifts` filter handed to the trading view. */
  function OfferableShifts(shifts: seq<Shift>, assignments: seq<Assignment>, selectedMember: string): seq<Shift>
  {
    var mine := Filter((a: Assignment) => a.userId == selectedMember, assignments);
    Filter((s: Shift) => Any((a: Assignment) => a.shiftId == s.id, mine), shifts)
  }

  /** A shift is offered exactly when the selected member holds an assignment to it. */
  lemma OfferableShiftsContain(shifts: seq<Shift>, assignments: seq<Assignment>, selectedMember: string, s: Shift)
    ensures s in OfferableShifts(shifts, assignments, selectedMember) <==>
      s in shifts && exists i :: 0 <= i < |assignments| && assignments[i].userId == selectedMember && assignments[i].shiftId == s.id
  {
    var mine := Filter((a: Assignment) => a.userId == selectedMember, assignments);
    var keep := (s: Shift) => Any((a: Assignment) => a.shiftId == s.id, mine);
    if s in OfferableShifts(shifts, assignments, selectedMember) {
      var k :| 0 <= k < |OfferableShifts(shifts, assignments, selectedMember)| && OfferableShifts(shifts, assignments, selectedMember)[k] == s;
      assert keep(s);
      var j :| 0 <= j < |mine| && mine[j].shiftId == s.id;
      assert mine[j] in assignments;
    }
    if s in shifts && exists i :: 0 <= i < |assignments| && assignments[i].userId == selectedMember && assignments[i].shiftId == s.id {
      var i :| 0 <= i < |assignments| && assignments[i].userId == selectedMember && assignments[i].shiftId == s.id;
      assert assignments[i] in mine;
      var j :| 0 <= j < |mine| && mine[j] == assignments[i];
      assert keep(s);
      var k :| 0 <= k < |shifts| && shifts[k] == s;
    }
  }
}
