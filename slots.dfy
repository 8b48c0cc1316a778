/** The hourly slot grid of the booking screen and the click that toggles a slot in
    or out of the selection (src/components/time-slot-selector.tsx). The grid's
    availability flags come from one random draw per slot in the component; here
    the draws are an input, one flag per slot in grid order. */
module TimeSlots {
  import opened Common

  datatype TimeSlot = TimeSlot(id: string, startTime: nat, endTime: nat, available: bool)

  const OpeningHour: nat := 9
  const ClosingHour: nat := 22
  const SlotCount: nat := ClosingHour - OpeningHour

  /** The id the grid gives the slot `[startTime, endTime)`: "HH:MM-HH:MM". */
  function SlotId(startTime: nat, endTime: nat): string
  {
    FormatTime(startTime) + "-" + FormatTime(endTime)
  }

  /** Distinct ranges on the grid get distinct ids. */
  lemma SlotIdInjective(s1: nat, e1: nat, s2: nat, e2: nat)
    requires s1 < 6000 && e1 < 6000 && s2 < 6000 && e2 < 6000
    requires SlotId(s1, e1) == SlotId(s2, e2)
    ensures s1 == s2 && e1 == e2
  {
    SplitAtSeparator(FormatTime(s1), FormatTime(e1), FormatTime(s2), FormatTime(e2), "-");
    if s1 != s2 { FormatTimeInjective(s1, s2); }
    if e1 != e2 { FormatTimeInjective(e1, e2); }
  }

  lemma SplitAtSeparator(x1: string, y1: string, x2: string, y2: string, sep: string)
    requires |x1| == |x2|
    requires x1 + sep + y1 == x2 + sep + y2
    ensures x1 == x2 && y1 == y2
  {
    var a, b := x1 + sep + y1, x2 + sep + y2;
    assert x1 == a[..|x1|] && x2 == b[..|x2|];
    assert y1 == a[|x1| + |sep|..] && y2 == b[|x2| + |sep|..];
  }

  /** The label `${h.padStart(2, '0')}:00` of a whole hour is the formatted time of its first minute. */
  lemma HourLabel(h: nat)
    requires h < 100
    ensures Pad2(h) + ":00" == FormatTime(h * 60)
  {
    assert (h * 60) / 60 == h && (h * 60) % 60 == 0;
  }

  /** The slot the grid builds for the hour starting at `h`, with the id written
      `${startHour}:00-${endHour}:00` and the availability draw `draw`. */
  function HourSlot(h: nat, draw: bool): TimeSlot
  {
    TimeSlot(Pad2(h) + ":00" + "-" + Pad2(h + 1) + ":00", h * 60, (h + 1) * 60, draw)
  }

  /** The first `n` slots of the grid. */
  function Grid(draws: seq<bool>, n: nat): seq<TimeSlot>
    requires n <= |draws|
  {
    if n == 0 then [] else Grid(draws, n - 1) + [HourSlot(OpeningHour + n - 1, draws[n - 1])]
  }

  /** A slot of the grid is one hour long and its id names its own range. */
  lemma HourSlotShape(h: nat, draw: bool)
    requires h < 99
    ensures HourSlot(h, draw).endTime == HourSlot(h, draw).startTime + 60
    ensures HourSlot(h, draw).id == SlotId(h * 60, (h + 1) * 60)
  {
    HourLabel(h);
    HourLabel(h + 1);
  }

  lemma {:induction false} GridElements(draws: seq<bool>, n: nat)
    requires n <= |draws|
    ensures |Grid(draws, n)| == n
    ensures forall i :: 0 <= i < n ==> Grid(draws, n)[i] == HourSlot(OpeningHour + i, draws[i])
  {
    if n > 0 {
      GridElements(draws, n - 1);
      var g, last := Grid(draws, n - 1), HourSlot(OpeningHour + n - 1, draws[n - 1]);
      assert Grid(draws, n) == g + [last];
      forall i | 0 <= i < n
        ensures Grid(draws, n)[i] == HourSlot(OpeningHour + i, draws[i])
      {
        if i < n - 1 {
          assert Grid(draws, n)[i] == g[i];
        }
      }
    }
  }

  /** The whole grid: thirteen back-to-back hours from 09:00 to 22:00, each slot's id
      naming its range, each flag its own draw, and no id twice. */
  lemma GridShape(draws: seq<bool>)
    requires |draws| == SlotCount
    ensures |Grid(draws, SlotCount)| == 13
    ensures Grid(draws, SlotCount)[0].startTime == 9 * 60 && Grid(draws, SlotCount)[12].endTime == 22 * 60
    ensures forall i :: 0 <= i < SlotCount ==> Grid(draws, SlotCount)[i].startTime == OpeningHour * 60 + 60 * i
    ensures forall i :: 0 <= i < SlotCount ==> Grid(draws, SlotCount)[i].endTime == Grid(draws, SlotCount)[i].startTime + 60
    ensures forall i :: 0 <= i < SlotCount - 1 ==> Grid(draws, SlotCount)[i].endTime == Grid(draws, SlotCount)[i + 1].startTime
    ensures forall i :: 0 <= i < SlotCount ==>
      Grid(draws, SlotCount)[i].id == SlotId(Grid(draws, SlotCount)[i].startTime, Grid(draws, SlotCount)[i].endTime)
    ensures forall i :: 0 <= i < SlotCount ==> Grid(draws, SlotCount)[i].available == draws[i]
    ensures forall i, j :: 0 <= i < j < SlotCount ==> Grid(draws, SlotCount)[i].id != Grid(draws, SlotCount)[j].id
  {
    var g := Grid(draws, SlotCount);
    GridElements(draws, SlotCount);
    forall i | 0 <= i < SlotCount
      ensures g[i].startTime == OpeningHour * 60 + 60 * i
      ensures g[i].endTime == g[i].startTime + 60
      ensures g[i].id == SlotId(g[i].startTime, g[i].endTime)
    {
      HourSlotShape(OpeningHour + i, draws[i]);
    }
    GridIdsDistinct(g);
  }

  /** `generateTimeSlots()`: one slot per hour from 09:00 to 22:00. */
  method GenerateTimeSlots(draws: seq<bool>) returns (slots: seq<TimeSlot>)
    requires |draws| == SlotCount
    ensures slots == Grid(draws, SlotCount)
  {
    slots := [];
    var hour := OpeningHour;
    while hour < ClosingHour
      invariant OpeningHour <= hour <= ClosingHour
      invariant slots == Grid(draws, hour - OpeningHour)
    {
      var startHour := Pad2(hour);
      var endHour := Pad2(hour + 1);
      slots := slots + [TimeSlot(startHour + ":00" + "-" + endHour + ":00", hour * 60, (hour + 1) * 60, draws[hour - OpeningHour])];
      hour := hour + 1;
    }
  }

  /** Slots with distinct start times on the grid have distinct ids. */
  lemma GridIdsDistinct(slots: seq<TimeSlot>)
    requires forall i :: 0 <= i < |slots| ==> slots[i].startTime == OpeningHour * 60 + 60 * i < 6000
    requires forall i :: 0 <= i < |slots| ==> slots[i].endTime == slots[i].startTime + 60 < 6000
    requires forall i :: 0 <= i < |slots| ==> slots[i].id == SlotId(slots[i].startTime, slots[i].endTime)
    ensures forall i, j :: 0 <= i < j < |slots| ==> slots[i].id != slots[j].id
  {
    forall i, j | 0 <= i < j < |slots|
      ensures slots[i].id != slots[j].id
    {
      if slots[i].id == slots[j].id {
        SlotIdInjective(slots[i].startTime, slots[i].endTime, slots[j].startTime, slots[j].endTime);
      }
    }
  }

  /** `selectedTimeSlots.some(s => s.id === id)`. */
  predicate IsSelected(selected: seq<TimeSlot>, id: string)
  {
    exists i :: 0 <= i < |selected| && selected[i].id == id
  }

  function HasOtherId(id: string): TimeSlot -> bool
  {
    (s: TimeSlot) => s.id != id
  }

  /** `handleTimeSlotClick(slot)`: the new selection handed to `onTimeSlotSelect`,
      or `None` when nothing is emitted. */
  function ToggleSlot(selected: seq<TimeSlot>, slot: TimeSlot): (r: Option<seq<TimeSlot>>)
    ensures r.None? <==> !slot.available
    ensures r.Some? && IsSelected(selected, slot.id) ==>
      !IsSelected(r.value, slot.id) && IsSubsequence(r.value, selected)
      && forall s :: s in selected && s.id != slot.id ==> s in r.value
    ensures r.Some? && IsSelected(selected, slot.id) ==>
      forall s: TimeSlot :: s.id != slot.id ==> multiset(r.value)[s] == multiset(selected)[s]
    ensures r.Some? && !IsSelected(selected, slot.id) ==> r.value == selected + [slot]
  {
    if !slot.available then None
    else if IsSelected(selected, slot.id) then
      var kept := Filter(selected, HasOtherId(slot.id));
      FilterIsSubsequence(selected, HasOtherId(slot.id));
      forall s | s in selected && s.id != slot.id
        ensures s in kept
      {
        FilterMembership(selected, HasOtherId(slot.id), s);
      }
      forall s: TimeSlot | s.id != slot.id
        ensures multiset(kept)[s] == multiset(selected)[s]
      {
        FilterMultiplicity(selected, HasOtherId(slot.id), s);
      }
      Some(kept)
    else Some(selected + [slot])
  }

  /** Clicking an available, unselected slot twice gives back the selection it started from. */
  lemma ToggleTwiceRestores(selected: seq<TimeSlot>, slot: TimeSlot)
    requires slot.available && !IsSelected(selected, slot.id)
    ensures ToggleSlot(selected, slot).Some?
    ensures ToggleSlot(ToggleSlot(selected, slot).value, slot) == Some(selected)
  {
    var once := selected + [slot];
    assert once[|selected|].id == slot.id;
    assert IsSelected(once, slot.id);
    FilterAppend(selected, [slot], HasOtherId(slot.id));
    forall i | 0 <= i < |selected|
      ensures HasOtherId(slot.id)(selected[i])
    {
    }
    FilterAll(selected, HasOtherId(slot.id));
    assert [slot][1..] == [];
    assert Filter([slot], HasOtherId(slot.id)) == [];
    assert Filter(once, HasOtherId(slot.id)) == selected;
    assert ToggleSlot(selected, slot) == Some(once);
    assert ToggleSlot(once, slot) == Some(Filter(once, HasOtherId(slot.id)));
  }
}
