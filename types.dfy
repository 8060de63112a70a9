/** The shared records and enumerations of the dashboard (web/src/types/index.ts)
    and the enumerations of the database schema (web/src/db/schema.tsx).
    Timestamps are integer minutes. */
module Types {
  import opened Seqs

  datatype Phase = Black | Blue | White

  datatype AvailabilityStatus = Available | Maybe | Unavailable

  datatype TradeType = Handoff | Swap

  datatype TradeUrgency = Low | Medium | High

  datatype TradeStatus = Open | Pending | Completed | Cancelled

  /** The `role` column of a profile: "Captain" or "Member". */
  datatype Role = CaptainRole | MemberRole

  /** The text the database and the components use for a status. */
  function StatusText(s: AvailabilityStatus): string
  {
    match s
    case Available => "available"
    case Maybe => "maybe"
    case Unavailable => "unavailable"
  }

  function TradeTypeText(t: TradeType): string
  {
    match t
    case Handoff => "handoff"
    case Swap => "swap"
  }

  function UrgencyText(u: TradeUrgency): string
  {
    match u
    case Low => "low"
    case Medium => "medium"
    case High => "high"
  }

  /** The text of a tent type, and its inverse: Postgres refuses any other text
      for the `tent_type` enum column. */
  function PhaseText(p: Phase): string
  {
    match p
    case Black => "Black"
    case Blue => "Blue"
    case White => "White"
  }

  function ParsePhase(s: string): (r: Option<Phase>)
    ensures r.None? ==> forall p: Phase :: PhaseText(p) != s
    ensures r.Some? ==> PhaseText(r.value) == s
  {
    if s == "Black" then Some(Black)
    else if s == "Blue" then Some(Blue)
    else if s == "White" then Some(White)
    else None
  }

  datatype MemberAvailability = MemberAvailability(memberId: string, slotTime: string, status: AvailabilityStatus)

  /** One entry of a member's `unavailable` list. */
  datatype Unavailability = Unavailability(start: string, end: string, reason: string)

  /** A member as the dashboard components see it; `unavailable` is optional. */
  datatype Member = Member(id: string, name: string, avatarColor: string, unavailable: Option<seq<Unavailability>>)

  /** One fifteen-minute row of the day's schedule. */
  datatype TimeSlot = TimeSlot(
    time: string,
    hour: int,
    minute: int,
    assignedUsers: seq<string>,
    availability: seq<MemberAvailability>,
    required: int,
    isNighttime: bool)

  datatype PhaseSettings = PhaseSettings(currentPhase: Phase, daytimeRequirement: int, nighttimeRequirement: int)

  datatype OfferedSlot = OfferedSlot(start: string, end: string, day: string)

  datatype RequestedSlot = RequestedSlot(start: string, end: string)

  datatype Trade = Trade(
    id: string,
    creatorId: string,
    tradeType: TradeType,
    urgency: TradeUrgency,
    status: TradeStatus,
    offeredTimeSlot: OfferedSlot,
    requestedTimeSlot: Option<RequestedSlot>,
    note: Option<string>,
    createdAt: string)

  /** A row of the `availabilities` table (its generated id and bookkeeping
      timestamps are not modelled). */
  datatype AvailabilityRow = AvailabilityRow(
    userId: string,
    tentId: string,
    startTime: int,
    endTime: int,
    status: AvailabilityStatus)
}
