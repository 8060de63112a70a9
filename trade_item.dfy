/** One row of the marketplace, web/src/components/dashboard/trading/TradeItem.tsx:
    who may do what with the trade, the urgency badge, the clock times cut out of
    the ISO strings and the creator's label. */
module TradeItem {
  import opened Seqs
  import opened Text
  import opened Types
  import opened Dashboard
  import opened TradeModal
  import opened Trading

  /** `isOwner`. */
  predicate IsOwner(trade: Trade, currentUserId: string)
  {
    trade.creatorId == currentUserId
  }

  const HighColor: string := "bg-red-100 text-red-800 dark:bg-red-900/30 dark:text-red-300"
  const MediumColor: string := "bg-yellow-100 text-yellow-800 dark:bg-yellow-900/30 dark:text-yellow-300"
  const LowColor: string := "bg-green-100 text-green-800 dark:bg-green-900/30 dark:text-green-300"
  const OtherColor: string := "bg-gray-100 text-gray-800"

  /** `getUrgencyColor`, which takes any text. */
  function UrgencyColor(urgency: string): string
  {
    if urgency == "high" then HighColor
    else if urgency == "medium" then MediumColor
    else if urgency == "low" then LowColor
    else OtherColor
  }

  /** The three urgencies get three different badges, none of them the fallback;
      every other text gets the fallback. */
  lemma UrgencyColorSpec(s: string)
    ensures UrgencyColor(UrgencyText(High)) == HighColor
    ensures UrgencyColor(UrgencyText(Medium)) == MediumColor
    ensures UrgencyColor(UrgencyText(Low)) == LowColor
    ensures HighColor != MediumColor && MediumColor != LowColor && HighColor != LowColor
    ensures OtherColor != HighColor && OtherColor != MediumColor && OtherColor != LowColor
    ensures (forall u: TradeUrgency :: s != UrgencyText(u)) ==> UrgencyColor(s) == OtherColor
  {
    // the four class lists differ in length
    assert |HighColor| == 60 && |MediumColor| == 72 && |LowColor| == 68 && |OtherColor| == 25;
  }

  /** `iso.split("T")[1].substring(0, 5)`: the first five characters after the
      first "T", up to a second "T"; None where the text has no "T" (the page
      then fails on the missing part). */
  function ClockPart(iso: string): (r: Option<string>)
    ensures r.None? <==> 'T' !in iso
    ensures r.Some? ==> |r.value| <= 5 && 'T' !in r.value
  {
    match SecondField(iso, 'T')
    case None => None
    case Some(field) => Some(Prefix(field, 5))
  }

  /** A five-character clock text right after the first "T" of a text is what
      the row shows, whatever follows it. */
  lemma ClockPartOf(date: string, clock: string, rest: string)
    requires 'T' !in date && 'T' !in clock && |clock| == 5
    ensures ClockPart(date + "T" + clock + rest) == Some(clock)
  {
    assert date + "T" + clock + rest == date + ['T'] + (clock + rest);
    SplitAtFirst(date, 'T', clock + rest);
    BeforeFirstAfterPrefix(clock, 'T', rest);
    assert (clock + BeforeFirst(rest, 'T'))[..5] == clock;
  }

  /** The times the modal builds read back as the shift's clock times. */
  lemma ClockPartOfDraftTime(clock: string)
    requires |clock| == 5 && 'T' !in clock
    ensures ClockPart(MockDate + clock + ":00") == Some(clock)
  {
    assert MockDate + clock + ":00" == "2025-02-12" + "T" + clock + ":00";
    ClockPartOf("2025-02-12", clock, ":00");
  }

  /** A draft built from a shift whose times are five-character clock texts shows
      those times; every mock shift is one. */
  lemma DraftTimesReadBack(shift: MockShift, tradeType: TradeType, urgency: TradeUrgency, note: string)
    requires |shift.start| == 5 && 'T' !in shift.start && |shift.end| == 5 && 'T' !in shift.end
    ensures var d := DraftFor(shift, tradeType, urgency, note);
      && ClockPart(d.offeredTimeSlot.start) == Some(shift.start)
      && ClockPart(d.offeredTimeSlot.end) == Some(shift.end)
  {
    ClockPartOfDraftTime(shift.start);
    ClockPartOfDraftTime(shift.end);
  }

  lemma MockShiftsAreClockTexts()
    ensures forall i :: 0 <= i < |MyMockShifts| ==>
      |MyMockShifts[i].start| == 5 && 'T' !in MyMockShifts[i].start
      && |MyMockShifts[i].end| == 5 && 'T' !in MyMockShifts[i].end
  {
  }

  /** So do the dashboard's slot times, on every trade posted from the modal. */
  lemma ClockPartOfSlotTime(hour: nat, minute: nat)
    requires hour < 100 && minute < 100
    ensures ClockPart(MockDate + ClockText(hour, minute) + ":00") == Some(ClockText(hour, minute))
  {
    ClockTextParses(hour, minute);
    var c := ClockText(hour, minute);
    assert 'T' !in c by {
      forall i | 0 <= i < |c| ensures c[i] != 'T' {
        assert c[i] == ':' || IsDigit(c[i]);
      }
    }
    ClockPartOfDraftTime(c);
  }

  /** The "Offered by" label. */
  function CreatorLabel(creatorId: string): (r: string)
    ensures r == "Alex Chen" <==> creatorId == "1"
    ensures creatorId != "1" ==> r == "Team Member"
  {
    if creatorId == "1" then "Alex Chen" else "Team Member"
  }

  /** The one button the expanded row offers and the callback it makes. */
  datatype ItemAction = CancelButton(tradeId: string) | AcceptButton(tradeId: string, caption: string)

  function OfferedAction(trade: Trade, currentUserId: string): (a: ItemAction)
    ensures a.CancelButton? <==> IsOwner(trade, currentUserId)
    ensures a.tradeId == trade.id
    ensures a.AcceptButton? ==> (a.caption == "Accept Swap" <==> trade.tradeType == Swap)
    ensures a.AcceptButton? && trade.tradeType != Swap ==> a.caption == "Accept Shift"
  {
    if IsOwner(trade, currentUserId) then CancelButton(trade.id)
    else AcceptButton(trade.id, "Accept " + (if trade.tradeType == Swap then "Swap" else "Shift"))
  }

  /** The page's handler for the button. */
  method Press(page: TradingView, trade: Trade)
    modifies page
    ensures page.trades == RemoveById(old(page.trades), trade.id)
    ensures page.filterType == old(page.filterType) && page.isCreateModalOpen == old(page.isCreateModalOpen)
  {
    match OfferedAction(trade, page.currentUserId)
    case CancelButton(id) => page.CancelTrade(id);
    case AcceptButton(id, _) => page.AcceptTrade(id);
  }
}
