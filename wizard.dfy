/** The two-step booking sheet (src/components/booking-modal.tsx): the price shown
    for the selected slots, the "HH:MM - HH:MM" range line, and the step handlers. */
module BookingWizard {
  import opened Common
  import opened TimeSlots

  const PricePerHour: nat := 10000

  /** `totalPrice = totalHours * pricePerHour`, one hour per selected slot. */
  function BaseAmount(slotCount: nat): nat
  {
    slotCount * PricePerHour
  }

  /** `Math.floor(totalPrice * 0.1)`: a tenth, rounded down. */
  function Tax(total: nat): (t: nat)
    ensures 10 * t <= total < 10 * t + 10
  {
    total / 10
  }

  /** `finalPrice = totalPrice + tax`. */
  function FinalPrice(slotCount: nat): nat
  {
    BaseAmount(slotCount) + Tax(BaseAmount(slotCount))
  }

  /** The sheet charges 11000 per selected slot: 10000 plus 1000 tax. */
  lemma FinalPricePerSlot(slotCount: nat)
    ensures Tax(BaseAmount(slotCount)) == 1000 * slotCount
    ensures FinalPrice(slotCount) == 11000 * slotCount
  {
  }

  lemma FinalPriceExamples()
    ensures FinalPrice(0) == 0 && FinalPrice(1) == 11000 && FinalPrice(3) == 33000
  {
    FinalPricePerSlot(0);
    FinalPricePerSlot(1);
    FinalPricePerSlot(3);
  }

  function NegatedStart(s: TimeSlot): int
  {
    -(s.startTime as int)
  }

  /** `[...selectedTimeSlots].sort((a, b) => a.startTime.localeCompare(b.startTime))`:
      a stable sort by start time, earliest first, of a copy. */
  function SortByStart(slots: seq<TimeSlot>): (r: seq<TimeSlot>)
    ensures multiset(r) == multiset(slots) && |r| == |slots|
    ensures forall i, j :: 0 <= i < j < |r| ==> r[i].startTime <= r[j].startTime
  {
    var r := SortDescending(slots, NegatedStart);
    assert |r| == |multiset(r)| == |slots|;
    assert forall i, j :: 0 <= i < j < |r| ==> NegatedStart(r[i]) >= NegatedStart(r[j]);
    r
  }

  /** The line `${first.startTime} - ${last.endTime}`. */
  function RangeLine(first: TimeSlot, last: TimeSlot): string
  {
    FormatTime(first.startTime) + " - " + FormatTime(last.endTime)
  }

  lemma RangeLineNotEmpty(first: TimeSlot, last: TimeSlot)
    ensures RangeLine(first, last) != ""
  {
    assert |RangeLine(first, last)| >= 3;
  }

  /** `getTimeRange()`: "" for no slots, otherwise the first sorted slot's start and
      the last sorted slot's end. */
  function GetTimeRange(slots: seq<TimeSlot>): string
  {
    if |slots| == 0 then ""
    else
      var sorted := SortByStart(slots);
      RangeLine(sorted[0], sorted[|sorted| - 1])
  }

  /** The first and last slots of the sorted copy come from the selection, and every
      selected slot starts between their starts. */
  lemma SortedBounds(slots: seq<TimeSlot>)
    requires slots != []
    ensures |SortByStart(slots)| == |slots|
    ensures SortByStart(slots)[0] in slots && SortByStart(slots)[|slots| - 1] in slots
    ensures forall k :: 0 <= k < |slots| ==>
      SortByStart(slots)[0].startTime <= slots[k].startTime <= SortByStart(slots)[|slots| - 1].startTime
  {
    var sorted := SortByStart(slots);
    forall k | 0 <= k < |slots|
      ensures sorted[0].startTime <= slots[k].startTime <= sorted[|sorted| - 1].startTime
    {
      assert slots[k] in multiset(sorted);
      var m :| 0 <= m < |sorted| && sorted[m] == slots[k];
    }
    assert sorted[0] in multiset(slots) && sorted[|sorted| - 1] in multiset(slots);
  }

  /** A line built from a slot starting first and a slot starting last of the
      selection names two such slots of the selection. */
  lemma SpanWitness(slots: seq<TimeSlot>, first: TimeSlot, last: TimeSlot, line: string)
    requires first in slots && last in slots
    requires forall k :: 0 <= k < |slots| ==> first.startTime <= slots[k].startTime <= last.startTime
    requires line == RangeLine(first, last)
    ensures exists i, j ::
        && 0 <= i < |slots| && 0 <= j < |slots|
        && (forall k :: 0 <= k < |slots| ==> slots[i].startTime <= slots[k].startTime)
        && (forall k :: 0 <= k < |slots| ==> slots[k].startTime <= slots[j].startTime)
        && line == RangeLine(slots[i], slots[j])
  {
    var i :| 0 <= i < |slots| && slots[i] == first;
    var j :| 0 <= j < |slots| && slots[j] == last;
    assert line == RangeLine(slots[i], slots[j]);
  }

  /** The range line is empty exactly when nothing is selected; otherwise it runs
      from the earliest start among the selection to the end of a slot that starts
      last. */
  lemma TimeRangeSpan(slots: seq<TimeSlot>)
    ensures GetTimeRange(slots) == "" <==> slots == []
    ensures slots != [] ==>
      exists i, j ::
        && 0 <= i < |slots| && 0 <= j < |slots|
        && (forall k :: 0 <= k < |slots| ==> slots[i].startTime <= slots[k].startTime)
        && (forall k :: 0 <= k < |slots| ==> slots[k].startTime <= slots[j].startTime)
        && GetTimeRange(slots) == RangeLine(slots[i], slots[j])
  {
    if slots != [] {
      SortedBounds(slots);
      var sorted := SortByStart(slots);
      var first, last := sorted[0], sorted[|slots| - 1];
      assert GetTimeRange(slots) == RangeLine(first, last);
      RangeLineNotEmpty(first, last);
      SpanWitness(slots, first, last, GetTimeRange(slots));
    }
  }

  datatype Step = DateTime | Confirmation

  /** The sheet's state: the step shown, the picked date (a day number), the picked
      slots, and the `open` flag the parent keeps and `onOpenChange` sets. */
  class BookingModal {
    var step: Step
    var selectedDate: Option<int>
    var selectedTimeSlots: seq<TimeSlot>
    var open: bool

    /** `canProceed`: a date is set and at least one slot is picked. */
    predicate CanProceed()
      reads this
    {
      selectedDate.Some? && |selectedTimeSlots| > 0
    }

    /** The confirmation step is only ever shown for a complete selection. */
    predicate Valid()
      reads this
    {
      step == Confirmation ==> CanProceed()
    }

    /** `totalHours` and `finalPrice` as displayed. */
    function TotalHours(): nat
      reads this
    {
      |selectedTimeSlots|
    }

    function DisplayedFinalPrice(): nat
      reads this
    {
      FinalPrice(TotalHours())
    }

    constructor (isOpen: bool)
      ensures step == DateTime && selectedDate == None && selectedTimeSlots == [] && open == isOpen
      ensures Valid()
    {
      step := DateTime;
      selectedDate := None;
      selectedTimeSlots := [];
      open := isOpen;
    }

    /** `handleDateSelect`: a new date clears the slot selection. */
    method HandleDateSelect(date: int)
      modifies this
      ensures selectedDate == Some(date) && selectedTimeSlots == []
      ensures step == old(step) && open == old(open)
      ensures old(step) == DateTime ==> Valid()
    {
      selectedDate := Some(date);
      selectedTimeSlots := [];
    }

    /** `handleTimeSlotSelect`: stores the list the slot grid emits. */
    method HandleTimeSlotSelect(slots: seq<TimeSlot>)
      modifies this
      ensures selectedTimeSlots == slots
      ensures step == old(step) && selectedDate == old(selectedDate) && open == old(open)
      ensures old(step) == DateTime ==> Valid()
    {
      selectedTimeSlots := slots;
    }

    /** `handleNext`: moves on only with a complete selection. */
    method HandleNext()
      modifies this
      ensures step == if old(CanProceed()) then Confirmation else old(step)
      ensures selectedDate == old(selectedDate) && selectedTimeSlots == old(selectedTimeSlots) && open == old(open)
      ensures old(Valid()) ==> Valid()
    {
      if selectedDate.Some? && |selectedTimeSlots| > 0 {
        step := Confirmation;
      }
    }

    /** `handleBack`. */
    method HandleBack()
      modifies this
      ensures step == DateTime
      ensures selectedDate == old(selectedDate) && selectedTimeSlots == old(selectedTimeSlots) && open == old(open)
      ensures Valid()
    {
      step := DateTime;
    }

    /** `handleBooking`: closes the sheet and starts over. */
    method HandleBooking()
      modifies this
      ensures !open && step == DateTime && selectedDate == None && selectedTimeSlots == []
      ensures Valid()
    {
      open := false;
      step := DateTime;
      selectedDate := None;
      selectedTimeSlots := [];
    }
  }
}
