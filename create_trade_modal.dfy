/** The "post a trade" form of web/src/components/dashboard/trading/CreateTradeModal.tsx:
    four form fields set by their inputs, and a submit that looks up the chosen
    shift among the user's (mock) shifts and hands a trade draft to the page. */
module TradeModal {
  import opened Seqs
  import opened Types

  /** One of the user's shifts offered for trading. */
  datatype MockShift = MockShift(id: string, day: string, start: string, end: string, date: string)

  const MyMockShifts: seq<MockShift> := [
    MockShift("s1", "Monday", "09:00", "11:00", "2025-02-12T09:00:00"),
    MockShift("s2", "Wednesday", "14:00", "16:00", "2025-02-14T14:00:00"),
    MockShift("s3", "Friday", "20:00", "22:00", "2025-02-16T20:00:00")
  ]

  /** The object `onSubmit` receives. */
  datatype TradeDraft = TradeDraft(
    shiftId: string,
    tradeType: TradeType,
    urgency: TradeUrgency,
    note: string,
    offeredTimeSlot: OfferedSlot)

  /** The callbacks a submit makes, in order. */
  datatype ModalCall = OnSubmit(draft: TradeDraft) | OnClose

  /** The fixed date every offered slot is placed on. */
  const MockDate: string := "2025-02-12T"

  function FindShift(shifts: seq<MockShift>, id: string): (r: Option<MockShift>)
    ensures r.None? <==> forall i :: 0 <= i < |shifts| ==> shifts[i].id != id
    ensures r.Some? ==> r.value in shifts && r.value.id == id
  {
    Find((s: MockShift) => s.id == id, shifts)
  }

  /** The draft for a shift: its clock times put on the mock date, whatever the
      shift's own date. */
  function DraftFor(shift: MockShift, tradeType: TradeType, urgency: TradeUrgency, note: string): (d: TradeDraft)
    ensures d.shiftId == shift.id && d.tradeType == tradeType && d.urgency == urgency && d.note == note
    ensures d.offeredTimeSlot.day == shift.day
    ensures |d.offeredTimeSlot.start| > |MockDate| && |d.offeredTimeSlot.end| > |MockDate|
    ensures d.offeredTimeSlot.start[..|MockDate|] == MockDate && d.offeredTimeSlot.end[..|MockDate|] == MockDate
    ensures d.offeredTimeSlot.start == MockDate + shift.start + ":00" && d.offeredTimeSlot.end == MockDate + shift.end + ":00"
  {
    TradeDraft(shift.id, tradeType, urgency, note,
               OfferedSlot(MockDate + shift.start + ":00", MockDate + shift.end + ":00", shift.day))
  }

  /** Two shifts that differ only in their date give the same draft. */
  lemma DraftIgnoresDate(shift: MockShift, otherDate: string, tradeType: TradeType, urgency: TradeUrgency, note: string)
    ensures DraftFor(shift.(date := otherDate), tradeType, urgency, note) == DraftFor(shift, tradeType, urgency, note)
  {
  }

  class CreateTradeModal {
    var selectedShiftId: string
    var tradeType: TradeType
    var urgency: TradeUrgency
    var note: string

    constructor ()
      ensures selectedShiftId == "" && tradeType == Handoff && urgency == Medium && note == ""
    {
      selectedShiftId := "";
      tradeType := Handoff;
      urgency := Medium;
      note := "";
    }

    /** The shift buttons. */
    method SelectShift(id: string)
      modifies this
      ensures selectedShiftId == id && tradeType == old(tradeType) && urgency == old(urgency) && note == old(note)
    {
      selectedShiftId := id;
    }

    method SetTradeType(t: TradeType)
      modifies this
      ensures tradeType == t && selectedShiftId == old(selectedShiftId) && urgency == old(urgency) && note == old(note)
    {
      tradeType := t;
    }

    method SetUrgency(u: TradeUrgency)
      modifies this
      ensures urgency == u && selectedShiftId == old(selectedShiftId) && tradeType == old(tradeType) && note == old(note)
    {
      urgency := u;
    }

    method SetNote(text: string)
      modifies this
      ensures note == text && selectedShiftId == old(selectedShiftId) && tradeType == old(tradeType) && urgency == old(urgency)
    {
      note := text;
    }

    /** The submit button is disabled while no shift is chosen. */
    predicate SubmitDisabled()
      reads this
    {
      selectedShiftId == ""
    }

    /** `handleSubmit`: no call for an id naming no shift; otherwise `onSubmit`
        with the draft for the chosen shift and the current fields, then `onClose`. */
    method HandleSubmit() returns (calls: seq<ModalCall>)
      ensures FindShift(MyMockShifts, selectedShiftId).None? ==> calls == []
      ensures FindShift(MyMockShifts, selectedShiftId).Some? ==>
        calls == [OnSubmit(DraftFor(FindShift(MyMockShifts, selectedShiftId).value, tradeType, urgency, note)), OnClose]
      ensures |calls| == 0 || (|calls| == 2 && calls[0].OnSubmit? && calls[0].draft.shiftId == selectedShiftId
                               && calls[1] == OnClose)
    {
      var shift := FindShift(MyMockShifts, selectedShiftId);
      if shift.None? {
        return [];
      }
      calls := [OnSubmit(DraftFor(shift.value, tradeType, urgency, note)), OnClose];
    }
  }

  /** No mock shift has the empty id, so a submit with nothing chosen calls
      nothing, like the disabled button. */
  lemma DisabledSubmitFindsNoShift()
    ensures FindShift(MyMockShifts, "").None?
  {
    assert forall i :: 0 <= i < |MyMockShifts| ==> MyMockShifts[i].id != "";
  }
}
