# TentShift scheduling core in Dafny

TentShift is a web app for tent groups. A tent has a captain and members, and the app schedules who is present in the tent around the clock. This project models the app's scheduling and trading logic and proves it correct.

## What is modelled

**Day grid.** `Dashboard` builds the dashboard's day: 96 quarter-hour slots. For each slot it works out:
- its "HH:MM" text and its night flag;
- the shifts active in it;
- the users assigned to those shifts;
- how many people it requires.

It also covers the mapping of member rows for the views, and the shifts a member may offer for trading.

**Views.** Three modules read the grid:
- `Spreadsheet` is the paintable grid. It holds a per-cell status map driven by a press, drag and release gesture, plus hour labels and a per-row staffing verdict.
- `Summary` is the live status page: the current and next slot, who is on them, the safety verdict, and the viewer's next shift.
- `Calendar` is the slot cards: staffing flags, the members shown on a card, and their clashes with unavailability entries.

**Availability painter.** `AvailabilityGrid` is a drag-range selector. When the drag is released, it submits the selected range to the `updateAvailability` server action.

**Trade marketplace.** Three modules:
- `Trading` is the client-side list of trades. Posting prepends a trade, accepting or cancelling removes one by id, and the page shows the list through a type filter.
- `TradeItem` decides, for one trade, which button the viewer gets and what the row shows.
- `TradeModal` is the posting form and its submit rule.

**Server actions.** `Actions` models `updateAvailability`, `createTent` and `joinTent` as methods on a `Database` class. The class holds the `tents`, `profiles` and `availabilities` tables as a sequence, a map and a sequence. Its `Valid()` predicate states the table constraints, and every action preserves it.

**Team-name editor.** `Header` models the editor's save and key handling.

**Shared modules:**
- `Seqs`: Filter, Map and Find, plus the list facts shared by the other modules.
- `Text`: JavaScript's number printing, `padStart`, `parseInt`, `split` segments, `trim` and `toUpperCase`.
- `Types`: the shared records and enums.
- `Staffing`: the staffing ratio `assigned / required`, modelled exactly as the outcome of comparing it with 1. This includes the NaN and Infinity cases that a zero requirement produces.

**Time.** Timestamps are integer minutes. A slot starts at `dayStart + 60 * hour + minute`.

**Changed names.** Some fields and constructors are renamed because the source names are Dafny keywords or clash with other names:
- `TimeSlot.assigned` is `assignedUsers`;
- `Trade.type` is `tradeType`;
- the roles are `CaptainRole` and `MemberRole`;
- a button label is `caption`.

**Conflict detection never fires on the dashboard's data.** `Calendar.IsoEntriesNeverConflict` proves this. The dashboard stores unavailability entries as ISO timestamps ("2025-…"), so `parseInt(text.split(":")[0])` returns the year, not the hour. No slot hour then reaches that year. `Calendar.EntryConflictsOnClockTexts` proves that the check does work on "HH:MM" texts. No page renders the calendar view, so the model keeps the code as written.

## Model

All source paths are relative to the repository root.

| member | source | states |
|---|---|---|
| Types.ParsePhase | web/src/db/schema.tsx:13-14 | the text of a tent type maps back to exactly that type; any other text is refused, as the `tent_type` enum column refuses it |
| Staffing.CompareRatioToOne | web/src/components/dashboard/SpreadsheetScheduler.tsx:108-113 | for a positive requirement, Below, Equal and Above hold exactly when the head count is less than, equal to or more than the requirement; the result is unordered (NaN) exactly for 0/0 |
| Staffing.RatioAgreesWithQuotient | web/src/components/dashboard/CalendarScheduler.tsx:39-42 | for every non-zero requirement, the three outcomes agree with comparing the exact real quotient with 1 |
| Text.TwoDigitsShape | web/src/components/dashboard/DesktopDashboard.tsx:51-53 | `toString().padStart(2, "0")` of a number below 100 is two digits that read back as the number |
| Text.NatToStringValue | web/src/components/dashboard/DesktopDashboard.tsx:51 | reading back the decimal digits of `toString()` gives the number |
| Text.ParseTwoDigits | web/src/components/dashboard/CalendarScheduler.tsx:64-65 | `parseInt` of a zero-padded two-digit number followed by a non-digit gives the number |
| Text.TrimEmptyIffBlank | web/src/components/dashboard/Header.tsx:50 | `trim()` gives the empty string exactly when the text is whitespace only |
| Text.ToUpper | web/src/app/actions/tent.ts:28 | `toUpperCase()` keeps the length and upper-cases each letter in place |
| Dashboard.GenerateTimeSlots | web/src/components/dashboard/DesktopDashboard.tsx:34-98 | the result has exactly 96 slots in order: slot i is the slot built for hour i/4 and minute 15·(i mod 4) from the shifts active at its start, and it starts 15·i minutes into the day (so the slots ascend) |
| Dashboard.PushHour | web/src/components/dashboard/DesktopDashboard.tsx:45-94 | one pass of the inner loop appends the four quarter-hour slots of the hour and keeps the earlier slots |
| Dashboard.SlotOfIndexFields | web/src/components/dashboard/DesktopDashboard.tsx:43-53 | slot i has hour i/4, minute 15·(i mod 4), the zero-padded "HH:MM" text, the night flag of its hour and empty availability, and starts 15·i minutes into the day |
| Dashboard.ClockTextParses | web/src/components/dashboard/DesktopDashboard.tsx:51-53 | a slot time is five characters with ':' third and no '-'; its hour and minute parse back from the text before and after the ':' |
| Dashboard.ActiveShiftsContain | web/src/components/dashboard/DesktopDashboard.tsx:64-68 | a shift is active for a slot exactly when start <= slot start < end (half-open) |
| Dashboard.UncoveredSlot | web/src/components/dashboard/DesktopDashboard.tsx:46-49 | with no shift active, nobody is assigned and the requirement is the phase's night or day default, chosen by 1 <= hour < 7 |
| Dashboard.CoveredSlotRequirement | web/src/components/dashboard/DesktopDashboard.tsx:80-83 | the requirement is the `requiredCount` of the first active shift in shift order |
| Dashboard.AssignedUserIdsContain | web/src/components/dashboard/DesktopDashboard.tsx:72-74 | a user is listed exactly when one of their assignments belongs to an active shift |
| Dashboard.AssignedUserIdsInOrder | web/src/components/dashboard/DesktopDashboard.tsx:72-74 | no assignments list nobody; one more assignment appends its user exactly when its shift is active, so users come in assignment order, once per such assignment |
| Dashboard.UiMembersSpec | web/src/components/dashboard/DesktopDashboard.tsx:114-125 | one UI member per profile, in order; the name is the full name or "Unknown"; the `unavailable` list holds exactly that member's "unavailable" rows, in order |
| Dashboard.OfferableShiftsContain | web/src/components/dashboard/DesktopDashboard.tsx:365-375 | a shift is offered for trading exactly when the selected member has an assignment to it |
| Spreadsheet.CellKeyInjective | web/src/components/dashboard/SpreadsheetScheduler.tsx:47-48 | when slot times contain no '-', the key `memberId-slotTime` determines the member and the slot |
| Spreadsheet.CellKeyCollision | web/src/components/dashboard/SpreadsheetScheduler.tsx:47-48 | without that condition two different cells share a key: a '-' inside the time makes the key ambiguous |
| Spreadsheet.SpreadsheetScheduler.constructor | web/src/components/dashboard/SpreadsheetScheduler.tsx:31-38 | not dragging, nothing painted, paint mode "available", no drag start |
| Spreadsheet.SpreadsheetScheduler.CellStatus | web/src/components/dashboard/SpreadsheetScheduler.tsx:50-63 | the status stored under the cell's key, "unavailable" when none is stored |
| Spreadsheet.SpreadsheetScheduler.SetPaintMode | web/src/components/dashboard/SpreadsheetScheduler.tsx:209-231 | the paint mode changes and nothing else does |
| Spreadsheet.SpreadsheetScheduler.MouseDown | web/src/components/dashboard/SpreadsheetScheduler.tsx:65-77 | a slot time not in the grid changes nothing; otherwise dragging starts at the cell and exactly that key is painted with the paint mode |
| Spreadsheet.SpreadsheetScheduler.MouseEnter | web/src/components/dashboard/SpreadsheetScheduler.tsx:79-87 | the entered cell is painted only while dragging with a recorded start; otherwise nothing changes |
| Spreadsheet.SpreadsheetScheduler.MouseUp | web/src/components/dashboard/SpreadsheetScheduler.tsx:89-92 | dragging and the drag start are cleared; every painted cell stays as it is |
| Spreadsheet.PaintTouchesOneCell | web/src/components/dashboard/SpreadsheetScheduler.tsx:65-87 | painting a cell leaves every other cell's presence and status in the map unchanged |
| Spreadsheet.HourLabelOfSlotTime | web/src/components/dashboard/SpreadsheetScheduler.tsx:94-106 | on the grid's slot times the label is "" off the full hour, "12 AM" at 0, "h AM" for 1–11, "12 PM" at 12 and "(h−12) PM" for 13–23 |
| Spreadsheet.HourLabelOfParsed | web/src/components/dashboard/SpreadsheetScheduler.tsx:94-106 | for any text whose hour and minute parse to numbers, the label depends on those numbers alone: "" off the full hour, then the 12-hour clock hour with AM or PM |
| Spreadsheet.RowStaffingStatusCases | web/src/components/dashboard/SpreadsheetScheduler.tsx:108-113 | for a positive requirement the verdict follows the head count (under, perfect, over); a zero requirement is "overstaffed"; a negative one is "understaffed" |
| Spreadsheet.TimeLabelShownWithText | web/src/components/dashboard/SpreadsheetScheduler.tsx:116 | a row shows its time label exactly when the minute is 0, which is exactly when the label text is non-empty |
| Summary.CurrentSlotIndex | web/src/components/dashboard/SummaryView.tsx:33-39 | for a valid clock time the index lies in 0..95 and is the quarter hour containing the time |
| Summary.SlotOrFirst | web/src/components/dashboard/SummaryView.tsx:42-43 | the slot at the index if there is one, else the first slot; absent only when there are no slots |
| Summary.CurrentAndNextOnFullDay | web/src/components/dashboard/SummaryView.tsx:41-43 | on a full day the current slot is the one at the index and the next slot wraps from 95 to 0 |
| Summary.MemberDetails | web/src/components/dashboard/SummaryView.tsx:46-49 | the result is no longer than the id list and holds only members |
| Summary.MemberDetailsSpec | web/src/components/dashboard/SummaryView.tsx:46-49 | the result's ids are a subsequence of the given ids; each entry is the first member with its id; every id with a member is represented |
| Summary.MemberDetailsExact | web/src/components/dashboard/SummaryView.tsx:46-49 | the result's ids are exactly the given ids that name a member, in order and with repeats: an id listed twice gives two entries |
| Summary.MemberDetailsAllFound | web/src/components/dashboard/SummaryView.tsx:46-49 | when every id names a member, nothing is dropped |
| Summary.IsSafeAgreesWithGrid | web/src/components/dashboard/SummaryView.tsx:54 | for a non-negative requirement, "safe" (assigned count >= required) holds exactly when the grid's verdict is not "understaffed" |
| Summary.NextPersonalSlotSpec | web/src/components/dashboard/SummaryView.tsx:58-60 | the next personal slot is the first slot at or after the index with the member assigned; it is absent exactly when there is none |
| Summary.NextPersonalShiftDisplay | web/src/components/dashboard/SummaryView.tsx:62-67 | the display reads "No more shifts today" exactly when no slot from the index on has the member |
| Calendar.SlotStaffingCases | web/src/components/dashboard/CalendarScheduler.tsx:39-42 | for a positive requirement exactly one flag is up, the one the head count calls for; no flag is up at 0/0; only "overstaffed" at n/0; only "understaffed" for a negative requirement |
| Calendar.AssignedMembersSpec | web/src/components/dashboard/CalendarScheduler.tsx:57 | the card's members are exactly the members whose id is assigned, as a subsequence of the member list (member order, not assignment order) |
| Calendar.FirstConflict | web/src/components/dashboard/CalendarScheduler.tsx:132-154 | the first clashing entry of a member; present exactly when that member's `hasConflict` holds; absent when the member has no list |
| Calendar.HasConflictsSpec | web/src/components/dashboard/CalendarScheduler.tsx:60-68 | the card warns exactly when some assigned member has a clashing entry |
| Calendar.EntryConflictsOnClockTexts | web/src/components/dashboard/CalendarScheduler.tsx:63-66 | on "HH:MM" entry texts, an entry clashes exactly when start hour <= slot hour < end hour; minutes play no part |
| Calendar.IsoEntriesNeverConflict | web/src/components/dashboard/CalendarScheduler.tsx:63-66 | on an ISO timestamp the parsed "hour" is the four-digit year, so no slot hour below 1000 clashes |
| Calendar.SlotHeadingOfClockText | web/src/components/dashboard/CalendarScheduler.tsx:70-76 | on the grid's slot times the heading is "12:00 AM", "h:00 AM", "12:00 PM" or "(h−12):00 PM", whatever the minute |
| Calendar.SlotHeadingOfHour | web/src/components/dashboard/CalendarScheduler.tsx:70-76 | for any text whose part before ':' parses to a number, the heading depends on that number alone: "12:00 AM", "h:00 AM", "12:00 PM" or "(h−12):00 PM" |
| AvailabilityGrid.SubmittedRange | web/src/components/availability/AvailabilityGrid.tsx:74-81 | the submitted range runs from the earlier end to 15 minutes past the later one; it contains both ends; its start is before its end |
| AvailabilityGrid.SubmittedRangeSymmetric | web/src/components/availability/AvailabilityGrid.tsx:74-77 | dragging up or down over the same slots submits the same range |
| AvailabilityGrid.PreviewIsSubmittedRange | web/src/components/availability/AvailabilityGrid.tsx:88-98 | on the quarter-hour grid, the inclusive preview [min, max] covers exactly the slots of the submitted half-open range |
| AvailabilityGrid.StoredStatus | web/src/components/availability/AvailabilityGrid.tsx:100-108 | the status of the first stored row of the user covering the slot (start <= slot < end); absent exactly when no row covers it |
| AvailabilityGrid.AvailabilityGrid.constructor | web/src/components/availability/AvailabilityGrid.tsx:44-48 | not dragging, no ends, status "available" |
| AvailabilityGrid.AvailabilityGrid.MouseDown | web/src/components/availability/AvailabilityGrid.tsx:57-62 | dragging starts with both ends at the slot and the given status |
| AvailabilityGrid.AvailabilityGrid.MouseEnter | web/src/components/availability/AvailabilityGrid.tsx:64-68 | only the far end moves, and only while dragging |
| AvailabilityGrid.AvailabilityGrid.CellMouseDown | web/src/components/availability/AvailabilityGrid.tsx:164-167 | only the current user's cells start a drag, always with "available" |
| AvailabilityGrid.AvailabilityGrid.CellMouseEnter | web/src/components/availability/AvailabilityGrid.tsx:168-170 | only the current user's cells extend a drag |
| AvailabilityGrid.AvailabilityGrid.MouseUp | web/src/components/availability/AvailabilityGrid.tsx:70-86 | without a drag that has both ends, nothing changes and nothing is submitted; otherwise dragging stops, the normalised range goes to `updateAvailability` with that action's outcome, and the ends are cleared only when it succeeds |
| AvailabilityGrid.AvailabilityGrid.SlotStatus | web/src/components/availability/AvailabilityGrid.tsx:88-109 | while dragging with both ends set, the current user's slots in [min, max] show the drag status; every other slot (other users, outside the run, no drag, an end missing) shows its stored status |
| Actions.ProfileTent | web/src/app/actions/availability.ts:23-29 | the user's tent is their profile's tentId, and it is absent when the profile is missing or the tentId is null or empty |
| Actions.FindTentByCode | web/src/app/actions/tent.ts:81-83 | a tent holding exactly the code; absent exactly when no tent holds it |
| Actions.UpsertProfileSpec | web/src/app/actions/tent.ts:45-59 | a new profile is created with the tent, the role and the e-mail as name; an existing one changes only tent and role; other profiles are untouched |
| Actions.UpsertProfileIdempotent | web/src/app/actions/tent.ts:90-104 | repeating the same upsert changes nothing more |
| Actions.Database.constructor | web/src/db/schema.tsx:22-51 | an empty store satisfies the table constraints |
| Actions.Database.UpdateAvailability | web/src/app/actions/availability.ts:9-42 | no user gives "Unauthorized" and no profile tent gives "No tent found", each with the store unchanged; otherwise exactly one row is appended with the user, the tent and the given range and status; existing rows are untouched and the range is not checked |
| Actions.Database.CreateTent | web/src/app/actions/tent.ts:10-62 | no user gives "Unauthorized"; an empty name or type fails before any write; on success exactly one tent is added with the name, the type and the upper-cased code, and the user is upserted as "Captain"; every failure writes nothing |
| Actions.Database.JoinTent | web/src/app/actions/tent.ts:64-107 | no user, an empty code and a code no tent holds each fail with profiles unchanged; success sets the user's tent to the one holding the code and their role to "Member", whatever it was |
| Actions.JoinCodeShape | web/src/app/actions/tent.ts:28 | a stored join code is six characters with no lower-case letter |
| Actions.LowerCaseCodeNotFound | web/src/app/actions/tent.ts:81-83 | a code containing a lower-case letter finds no tent among upper-case codes |
| Actions.ResubmitTwice | web/src/app/actions/availability.ts:31-39 | submitting the same range twice stores the same row twice, since the insert checks no key on the range |
| TradeModal.FindShift | web/src/components/dashboard/trading/CreateTradeModal.tsx:49-50 | a shift with the chosen id; absent exactly when no shift has it |
| TradeModal.DraftFor | web/src/components/dashboard/trading/CreateTradeModal.tsx:54-64 | the draft carries the shift's id and day and the form's type, urgency and note; its start and end are "2025-02-12T" followed by the shift's start and end and ":00" |
| TradeModal.DraftIgnoresDate | web/src/components/dashboard/trading/CreateTradeModal.tsx:59-63 | the shift's own date has no effect on the draft |
| TradeModal.CreateTradeModal.constructor | web/src/components/dashboard/trading/CreateTradeModal.tsx:42-45 | no shift selected, type "handoff", urgency "medium", empty note |
| TradeModal.CreateTradeModal.SelectShift | web/src/components/dashboard/trading/CreateTradeModal.tsx:92 | only the selected shift changes |
| TradeModal.CreateTradeModal.SetTradeType | web/src/components/dashboard/trading/CreateTradeModal.tsx:129-131 | only the type changes |
| TradeModal.CreateTradeModal.SetUrgency | web/src/components/dashboard/trading/CreateTradeModal.tsx:146-148 | only the urgency changes |
| TradeModal.CreateTradeModal.SetNote | web/src/components/dashboard/trading/CreateTradeModal.tsx:165 | only the note changes |
| TradeModal.CreateTradeModal.HandleSubmit | web/src/components/dashboard/trading/CreateTradeModal.tsx:47-66 | an id matching no shift makes no call; otherwise `onSubmit` is called once with the draft for that shift and the current fields, then `onClose` |
| TradeModal.DisabledSubmitFindsNoShift | web/src/components/dashboard/trading/CreateTradeModal.tsx:181 | with no shift selected (the disabled button), no shift is found, so a submit calls nothing |
| Trading.NewTrade | web/src/components/dashboard/TradingView.tsx:56-65 | a new trade has the poster as creator, status "open", the draft's type, urgency, note and slot, no requested slot, and an id starting with "t" |
| Trading.RemoveByIdSpec | web/src/components/dashboard/TradingView.tsx:72 | removal drops every trade with the id and keeps all others, in order |
| Trading.RemoveAbsentId | web/src/components/dashboard/TradingView.tsx:72 | removing an id no trade has leaves the list unchanged |
| Trading.RemoveByIdIdempotent | web/src/components/dashboard/TradingView.tsx:77 | removing an id twice is the same as removing it once |
| Trading.CreateThenRemove | web/src/components/dashboard/TradingView.tsx:66-77 | withdrawing a trade just posted under a fresh id restores the list |
| Trading.FilterTradesSpec | web/src/components/dashboard/TradingView.tsx:80-83 | "all" shows the whole list; a type filter shows exactly the trades of that type, in order |
| Trading.TradingView.constructor | web/src/components/dashboard/TradingView.tsx:43-47 | the mock trades, filter "all", modal closed |
| Trading.TradingView.CreateTrade | web/src/components/dashboard/TradingView.tsx:49-67 | exactly one new trade goes in front; the old ones follow in order |
| Trading.TradingView.AcceptTrade | web/src/components/dashboard/TradingView.tsx:69-74 | the list loses the trades with the id; nothing else changes |
| Trading.TradingView.CancelTrade | web/src/components/dashboard/TradingView.tsx:76-78 | the same change to the list as accepting |
| Trading.TradingView.SetFilter | web/src/components/dashboard/TradingView.tsx:107-110 | only the filter changes; the list stays as it is |
| Trading.TradingView.SetCreateModalOpen | web/src/components/dashboard/TradingView.tsx:97 | only whether the modal is open changes |
| Trading.SubmitFromModal | web/src/components/dashboard/TradingView.tsx:128-133 | from the open modal (the page renders it only then), a submit that makes no call leaves the page as it is; otherwise the page gains the draft's trade in front and the modal closes |
| TradeItem.UrgencyColorSpec | web/src/components/dashboard/trading/TradeItem.tsx:43-54 | high, medium and low map to three distinct badges; every other text gets the grey fallback |
| TradeItem.ClockPart | web/src/components/dashboard/trading/TradeItem.tsx:83-89 | absent exactly when the text has no "T"; otherwise at most five characters and no "T" |
| TradeItem.ClockPartOf | web/src/components/dashboard/trading/TradeItem.tsx:83-89 | for any text of the form date "T" clock rest, with no "T" in the date or in the five-character clock, the cut is exactly the clock, whatever follows (this covers the sample trades' "2025-02-13T14:00:00") |
| TradeItem.ClockPartOfDraftTime | web/src/components/dashboard/trading/TradeItem.tsx:83-89 | a time the modal builds reads back as the shift's clock text |
| TradeItem.ClockPartOfSlotTime | web/src/components/dashboard/trading/TradeItem.tsx:83-89 | the same holds for every slot time of the grid |
| TradeItem.DraftTimesReadBack | web/src/components/dashboard/trading/CreateTradeModal.tsx:54-64 | a draft built from a shift whose times are five-character clock texts shows those times as its start and end |
| TradeItem.MockShiftsAreClockTexts | web/src/components/dashboard/trading/CreateTradeModal.tsx:17-39 | every mock shift's start and end is a five-character text with no "T" |
| TradeItem.CreatorLabel | web/src/components/dashboard/trading/TradeItem.tsx:96-98 | the label is "Alex Chen" exactly when the creator id is "1", and "Team Member" otherwise |
| TradeItem.OfferedAction | web/src/components/dashboard/trading/TradeItem.tsx:165-186 | the owner gets Cancel and everyone else gets Accept, each for the trade's id; the Accept label is "Accept Swap" for swaps and "Accept Shift" otherwise |
| TradeItem.Press | web/src/components/dashboard/trading/TradeItem.tsx:165-186 | pressing the offered button removes the trade from the page's list; filter and modal are unchanged |
| Header.TeamNameEditor.constructor | web/src/components/dashboard/Header.tsx:39-40 | not editing; the name is the tent's name |
| Header.TeamNameEditor.StartEditing | web/src/components/dashboard/Header.tsx:147 | editing turns on and the name is kept |
| Header.TeamNameEditor.ChangeName | web/src/components/dashboard/Header.tsx:139 | the name becomes the typed text |
| Header.TeamNameEditor.SaveName | web/src/components/dashboard/Header.tsx:49-64 | a blank name changes nothing and makes no call; any other name turns editing off; an unchanged name makes no call; otherwise the untrimmed name is sent, and it reverts to the tent's name when the server reports failure |
| Header.TeamNameEditor.KeyDown | web/src/components/dashboard/Header.tsx:66-73 | Enter saves; Escape closes the editor and restores the name with no call; other keys change nothing |

## Left out

**Environment and external calls**
- Authentication and the session lookup are left out. The signed-in user is an `Option<AuthUser>` parameter.
- Drizzle and Postgres are modelled as in-memory tables. Transactions, `revalidatePath` and `redirect` are left out; a refused insert is the outcome `ConstraintViolation`.
- Randomness and clocks are parameters:
  - `rawCode` is the `nanoid(6)` join code;
  - `newTentId` is the generated tent id;
  - `now` and `createdAt` are the page's `Date.now()` and ISO time;
  - the hour and minute are the clock that SummaryView's interval reads.
- `updateTentName` (web/src/app/actions/tent-actions.ts) is not part of this model. `serverOk` stands for its answer.

**JavaScript Date and locale formatting**
- `toISOString` and `toLocaleTimeString` are left out. They appear as the parameters `iso` (`Dashboard.UiMembers`) and `clock` (`Summary.NextPersonalShiftDisplay`).
- The date-fns slot list of AvailabilityGrid is left out. It is a view concern and the model takes slot times as integers.
- Dashboard.GenerateTimeSlots: a slot's start is `dayStart + 60 * hour + minute`. The daylight-saving shift of `setHours` is not modelled.

**Rendering and UI concerns**
- All JSX, styles and colours are left out, except the urgency badge strings that `getUrgencyColor` returns.
- Also left out:
  - `alert`;
  - the clipboard and share toggles (`isExpanded`, `showCopied`) of TradeItem;
  - the calendar's `bgColor` choice.
- React's render batching and stale closures are not modelled. Each handler sees the state left by the previous one.
- The editor's `onBlur` save when it unmounts is not modelled.
- AvailabilityGrid.AvailabilityGrid: the stored rows are a constant. The page re-fetching them after `revalidatePath` is a new grid.

**Reads of missing values**
- A read of a missing slot (`timeSlots[0]` of an empty list) or of a missing "T" part throws in the page. The model returns None instead.

**JavaScript semantics**
- Text.ParseInt: leading whitespace and the "0x" prefix of `parseInt` are not modelled. No text the core passes to it has either.
- Text.ToUpper: only ASCII letters are upper-cased. `nanoid` codes are ASCII.

**Unused inputs**
- TradingView ignores its `availableShifts` prop. The list the dashboard computes for it is modelled in `Dashboard.OfferableShifts` and stops there.
