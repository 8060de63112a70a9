/** The shift marketplace page of web/src/components/dashboard/TradingView.tsx: a
    client-side list of trades that posting prepends to and accepting or
    cancelling removes from, shown through a type filter. The clock that names
    and dates new trades is a parameter. */
module Trading {
  import opened Seqs
  import opened Text
  import opened Types
  import opened TradeModal

  /** The filter buttons: "all", "handoff", "swap". */
  datatype FilterType = All | OnlyType(tradeType: TradeType)

  const MockTrades: seq<Trade> := [
    Trade("t1", "2", Handoff, High, Open,
          OfferedSlot("2025-02-13T14:00:00", "2025-02-13T16:00:00", "Thursday"), None,
          Some("Have a chemistry midterm, really need coverage!"), "2025-02-10T10:00:00"),
    Trade("t2", "3", Swap, Low, Open,
          OfferedSlot("2025-02-15T12:00:00", "2025-02-15T14:00:00", "Saturday"), None,
          Some("Prefer something on Sunday instead."), "2025-02-11T09:30:00")
  ]

  /** The trade `handleCreateTrade` builds: id "t" followed by the clock reading
      in milliseconds, the poster as creator, status open. */
  function NewTrade(draft: TradeDraft, creatorId: string, now: int, createdAt: string): (t: Trade)
    ensures t.creatorId == creatorId && t.status == Open
    ensures t.tradeType == draft.tradeType && t.urgency == draft.urgency
    ensures t.offeredTimeSlot == draft.offeredTimeSlot && t.note == Some(draft.note)
    ensures t.requestedTimeSlot.None? && |t.id| > 0 && t.id[0] == 't'
  {
    Trade("t" + IntToString(now), creatorId, draft.tradeType, draft.urgency, Open,
          draft.offeredTimeSlot, None, Some(draft.note), createdAt)
  }

  predicate HasOtherId(id: string, t: Trade) { t.id != id }

  /** `trades.filter((t) => t.id !== tradeId)`. */
  function RemoveById(trades: seq<Trade>, id: string): seq<Trade>
  {
    Filter((t: Trade) => HasOtherId(id, t), trades)
  }

  predicate Matches(f: FilterType, t: Trade)
  {
    f.All? || t.tradeType == f.tradeType
  }

  /** `filteredTrades`. */
  function FilterTrades(trades: seq<Trade>, f: FilterType): seq<Trade>
  {
    Filter((t: Trade) => Matches(f, t), trades)
  }

  /** Removal drops every trade with the id and keeps the others in order. */
  lemma RemoveByIdSpec(trades: seq<Trade>, id: string)
    ensures forall i :: 0 <= i < |RemoveById(trades, id)| ==> RemoveById(trades, id)[i].id != id
    ensures forall i :: 0 <= i < |trades| && trades[i].id != id ==> trades[i] in RemoveById(trades, id)
    ensures Subsequence(RemoveById(trades, id), trades)
  {
    FilterIsSubsequence((t: Trade) => HasOtherId(id, t), trades);
  }

  /** Removing an id no trade has changes nothing. */
  lemma RemoveAbsentId(trades: seq<Trade>, id: string)
    requires forall i :: 0 <= i < |trades| ==> trades[i].id != id
    ensures RemoveById(trades, id) == trades
  {
    FilterAllPass((t: Trade) => HasOtherId(id, t), trades);
  }

  /** Removing an id twice is removing it once. */
  lemma RemoveByIdIdempotent(trades: seq<Trade>, id: string)
    ensures RemoveById(RemoveById(trades, id), id) == RemoveById(trades, id)
  {
    FilterIdempotent((t: Trade) => HasOtherId(id, t), trades);
  }

  /** Withdrawing a trade just posted under a fresh id restores the list. */
  lemma CreateThenRemove(trades: seq<Trade>, t: Trade)
    requires forall i :: 0 <= i < |trades| ==> trades[i].id != t.id
    ensures RemoveById([t] + trades, t.id) == trades
  {
    assert ([t] + trades)[1..] == trades;
    RemoveAbsentId(trades, t.id);
  }

  /** "all" shows the whole list; a type filter shows exactly the trades of that
      type, in list order. */
  lemma FilterTradesSpec(trades: seq<Trade>, f: FilterType)
    ensures f.All? ==> FilterTrades(trades, f) == trades
    ensures f.OnlyType? ==>
      (forall i :: 0 <= i < |trades| ==> (trades[i] in FilterTrades(trades, f) <==> trades[i].tradeType == f.tradeType))
    ensures forall i :: 0 <= i < |FilterTrades(trades, f)| ==> Matches(f, FilterTrades(trades, f)[i])
    ensures Subsequence(FilterTrades(trades, f), trades)
  {
    FilterIsSubsequence((t: Trade) => Matches(f, t), trades);
    if f.All? {
      FilterAllPass((t: Trade) => Matches(f, t), trades);
    }
  }

  class TradingView {
    const currentUserId: string
    var trades: seq<Trade>
    var filterType: FilterType
    var isCreateModalOpen: bool

    constructor (currentUserId: string)
      ensures this.currentUserId == currentUserId
      ensures trades == MockTrades && filterType == All && !isCreateModalOpen
    {
      this.currentUserId := currentUserId;
      trades := MockTrades;
      filterType := All;
      isCreateModalOpen := false;
    }

    /** `handleCreateTrade`: the new trade goes in front of the others. */
    method CreateTrade(draft: TradeDraft, now: int, createdAt: string)
      modifies this
      ensures trades == [NewTrade(draft, currentUserId, now, createdAt)] + old(trades)
      ensures filterType == old(filterType) && isCreateModalOpen == old(isCreateModalOpen)
    {
      var newTrade := NewTrade(draft, currentUserId, now, createdAt);
      trades := [newTrade] + trades;
    }

    /** `handleAcceptTrade` (its alert left out). */
    method AcceptTrade(tradeId: string)
      modifies this
      ensures trades == RemoveById(old(trades), tradeId)
      ensures filterType == old(filterType) && isCreateModalOpen == old(isCreateModalOpen)
    {
      trades := RemoveById(trades, tradeId);
    }

    /** `handleCancelTrade`: the same change as accepting. */
    method CancelTrade(tradeId: string)
      modifies this
      ensures trades == RemoveById(old(trades), tradeId)
      ensures filterType == old(filterType) && isCreateModalOpen == old(isCreateModalOpen)
    {
      trades := RemoveById(trades, tradeId);
    }

    method SetFilter(f: FilterType)
      modifies this
      ensures filterType == f && trades == old(trades) && isCreateModalOpen == old(isCreateModalOpen)
    {
      filterType := f;
    }

    /** "Post New Trade" and the modal's `onClose`. */
    method SetCreateModalOpen(open: bool)
      modifies this
      ensures isCreateModalOpen == open && trades == old(trades) && filterType == old(filterType)
    {
      isCreateModalOpen := open;
    }

    /** The list the page shows. */
    function FilteredTrades(): seq<Trade>
      reads this
    {
      FilterTrades(trades, filterType)
    }
  }

  /** Posting from the modal: the submit's two callbacks, in order, make the
      page prepend the new trade and close the modal. */
  method SubmitFromModal(page: TradingView, modal: CreateTradeModal, now: int, createdAt: string)
    returns (calls: seq<ModalCall>)
    requires page.isCreateModalOpen
    modifies page
    ensures calls == [] ==> page.trades == old(page.trades) && page.isCreateModalOpen == old(page.isCreateModalOpen)
    ensures calls != [] ==>
      && FindShift(MyMockShifts, modal.selectedShiftId).Some?
      && page.trades == [NewTrade(DraftFor(FindShift(MyMockShifts, modal.selectedShiftId).value,
                                           modal.tradeType, modal.urgency, modal.note),
                                  page.currentUserId, now, createdAt)] + old(page.trades)
      && !page.isCreateModalOpen
    ensures page.filterType == old(page.filterType)
  {
    calls := modal.HandleSubmit();
    if calls != [] {
      page.CreateTrade(calls[0].draft, now, createdAt);
      page.SetCreateModalOpen(false);
    }
  }
}
