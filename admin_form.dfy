/** The administrator's "add booking by hand" dialog
    (src/components/admin/create-booking-modal.tsx): the form record, the
    recomputation of hours and price when a time changes, validation, the
    half-hour option list of the time pickers, and submit/cancel. Times are
    minutes since midnight; the date is a day number, `None` for an empty input. */
module AdminBookingForm {
  import opened Common
  import opened Store
  import opened TimeSlots
  import opened AdminReservationsApi

  datatype FormData = FormData(
    reserver_name: string,
    phone_number: string,
    email: string,
    booking_date: Option<int>,
    start_time: nat,
    end_time: nat,
    total_hours: real,
    total_price: int,
    status: Status)

  /** The edits the dialog's inputs can make, one per `handleInputChange(field, value)` call site. */
  datatype FieldChange =
    | SetName(name: string)
    | SetPhone(phone: string)
    | SetEmail(email: string)
    | SetDate(date: Option<int>)
    | SetStart(start: nat)
    | SetEnd(end: nat)
    | SetStatus(status: Status)

  /** `Math.round(x)`: the nearest integer, halves rounded up. */
  function RoundHalfUp(x: real): (n: int)
    ensures n as real - 0.5 <= x < n as real + 0.5
  {
    (x + 0.5).Floor
  }

  /** `(end - start)` in hours. */
  function HoursBetween(start: nat, end: nat): real
  {
    (end as real - start as real) / 60.0
  }

  /** `Math.round(hours * 10000 * 1.1)`: the price with 10% tax. */
  function PriceFor(hours: real): int
  {
    RoundHalfUp(hours * 10000.0 * 1.1)
  }

  /** `handleInputChange(field, value)`: sets the field; when a time changed and
      the range is non-empty, recomputes hours and price from it. */
  function HandleInputChange(prev: FormData, change: FieldChange): FormData
  {
    match change
    case SetName(v) => prev.(reserver_name := v)
    case SetPhone(v) => prev.(phone_number := v)
    case SetEmail(v) => prev.(email := v)
    case SetDate(v) => prev.(booking_date := v)
    case SetStatus(v) => prev.(status := v)
    case SetStart(v) => Retime(prev.(start_time := v))
    case SetEnd(v) => Retime(prev.(end_time := v))
  }

  /** The recomputation block run after a time field changed. */
  function Retime(updated: FormData): FormData
  {
    if updated.end_time > updated.start_time then
      var hours := HoursBetween(updated.start_time, updated.end_time);
      updated.(total_hours := hours, total_price := PriceFor(hours))
    else updated
  }

  predicate ChangesTime(change: FieldChange)
  {
    change.SetStart? || change.SetEnd?
  }

  /** What a change does: it sets its own field; a time change over a non-empty range
      sets hours and price from the new range, and otherwise the previous hours
      and price stay; all other fields are kept. */
  lemma HandleInputChangeSpec(prev: FormData, change: FieldChange)
    ensures var r := HandleInputChange(prev, change);
      && (change.SetName? ==> r == prev.(reserver_name := change.name))
      && (change.SetPhone? ==> r == prev.(phone_number := change.phone))
      && (change.SetEmail? ==> r == prev.(email := change.email))
      && (change.SetDate? ==> r == prev.(booking_date := change.date))
      && (change.SetStatus? ==> r == prev.(status := change.status))
      && (!ChangesTime(change) ==> r.total_hours == prev.total_hours && r.total_price == prev.total_price)
      && (change.SetStart? ==> r.start_time == change.start && r.end_time == prev.end_time)
      && (change.SetEnd? ==> r.end_time == change.end && r.start_time == prev.start_time)
      && (ChangesTime(change) && r.end_time > r.start_time ==>
            r.total_hours == (r.end_time - r.start_time) as real / 60.0
            && r.total_price == PriceFor(r.total_hours))
      && (ChangesTime(change) && r.end_time <= r.start_time ==>
            r.total_hours == prev.total_hours && r.total_price == prev.total_price)
      && (ChangesTime(change) ==>
            r.reserver_name == prev.reserver_name && r.phone_number == prev.phone_number
            && r.email == prev.email && r.booking_date == prev.booking_date && r.status == prev.status)
  {
  }

  /** On the half-hour grid of the time pickers, `k` half hours cost 5500 each. */
  lemma HalfHourPrice(start: nat, k: nat)
    requires k > 0
    ensures HoursBetween(start, start + 30 * k) == k as real / 2.0
    ensures PriceFor(HoursBetween(start, start + 30 * k)) == 5500 * k
  {
    assert HoursBetween(start, start + 30 * k) == (30 * k) as real / 60.0;
    assert k as real / 2.0 * 10000.0 * 1.1 + 0.5 == (5500 * k) as real + 0.5;
  }

  /** 09:00 to 10:00 is one hour and 11000. */
  lemma OneHourExample(prev: FormData)
    requires prev.start_time == 540
    ensures HandleInputChange(prev, SetEnd(600)).total_hours == 1.0
    ensures HandleInputChange(prev, SetEnd(600)).total_price == 11000
  {
    HalfHourPrice(540, 2);
  }

  // ---------------------------------------------------------------------------
  // Validation
  // ---------------------------------------------------------------------------

  datatype Rejection = NameRequired | PhoneRequired | DateRequired | EndNotAfterStart

  datatype Validation = Accepted | Rejected(reason: Rejection)

  /** `validateForm()`, the checks in their order. */
  function ValidateForm(f: FormData): Validation
  {
    if IsBlank(f.reserver_name) then Rejected(NameRequired)
    else if IsBlank(f.phone_number) then Rejected(PhoneRequired)
    else if f.booking_date.None? then Rejected(DateRequired)
    else if f.end_time <= f.start_time then Rejected(EndNotAfterStart)
    else Accepted
  }

  /** A form is accepted exactly when the name and phone hold more than whitespace,
      a date is set and the end is after the start; a rejection names the first
      check that failed. */
  lemma ValidateFormSpec(f: FormData)
    ensures ValidateForm(f) == Accepted <==>
      !IsBlank(f.reserver_name) && !IsBlank(f.phone_number) && f.booking_date.Some? && f.start_time < f.end_time
    ensures ValidateForm(f) == Rejected(NameRequired) <==> IsBlank(f.reserver_name)
    ensures ValidateForm(f) == Rejected(PhoneRequired) <==> !IsBlank(f.reserver_name) && IsBlank(f.phone_number)
    ensures ValidateForm(f) == Rejected(EndNotAfterStart) ==> f.booking_date.Some? && f.end_time <= f.start_time
  {
  }

  // ---------------------------------------------------------------------------
  // Time options
  // ---------------------------------------------------------------------------

  /** The label `${hh}:${mm}` the pickers give an hour and a minute, both padded to two digits. */
  function Clock(hour: nat, minute: nat): string
  {
    Pad2(hour) + ":" + Pad2(minute)
  }

  /** The label of an hour and a minute is the formatted time of that minute of the day. */
  lemma ClockIsFormatTime(hour: nat, minute: nat)
    requires minute < 60
    ensures Clock(hour, minute) == FormatTime(hour * 60 + minute)
  {
    assert (hour * 60 + minute) / 60 == hour && (hour * 60 + minute) % 60 == minute;
  }

  /** The two options of one hour of the inner loop: on the hour and half past. */
  function HourOptions(hour: nat): seq<string>
  {
    [Clock(hour, 0), Clock(hour, 30)]
  }

  /** The options of the first `hours` hours from 09:00. */
  function OptionsFor(hours: nat): seq<string>
  {
    if hours == 0 then [] else OptionsFor(hours - 1) + HourOptions(OpeningHour + hours - 1)
  }

  /** The option list: both half hours of every hour from 09:00 to 22:00 inclusive. */
  function TimeOptions(): seq<string>
  {
    OptionsFor(ClosingHour - OpeningHour + 1)
  }

  /** Option `i` is the time 09:00 + 30i. */
  lemma {:induction false} OptionsForElements(hours: nat)
    ensures |OptionsFor(hours)| == 2 * hours
    ensures forall i :: 0 <= i < 2 * hours ==> OptionsFor(hours)[i] == FormatTime(540 + 30 * i)
  {
    if hours > 0 {
      OptionsForElements(hours - 1);
      var h := OpeningHour + hours - 1;
      ClockIsFormatTime(h, 0);
      ClockIsFormatTime(h, 30);
      var prev := OptionsFor(hours - 1);
      assert OptionsFor(hours) == prev + HourOptions(h);
      forall i | 0 <= i < 2 * hours
        ensures OptionsFor(hours)[i] == FormatTime(540 + 30 * i)
      {
        if i < 2 * hours - 2 {
          assert OptionsFor(hours)[i] == prev[i];
        } else if i == 2 * hours - 2 {
          assert 540 + 30 * i == h * 60;
        } else {
          assert 540 + 30 * i == h * 60 + 30;
        }
      }
    }
  }

  /** `generateTimeOptions()`: every half hour from 09:00 to 22:30, built hour by hour. */
  method GenerateTimeOptions() returns (options: seq<string>)
    ensures options == TimeOptions()
  {
    options := [];
    var hour := OpeningHour;
    while hour <= ClosingHour
      invariant OpeningHour <= hour <= ClosingHour + 1
      invariant options == OptionsFor(hour - OpeningHour)
    {
      var minute := 0;
      while minute < 60
        invariant minute == 0 || minute == 30 || minute == 60
        invariant options == OptionsFor(hour - OpeningHour) + HourOptions(hour)[..minute / 30]
      {
        var timeString := Pad2(hour) + ":" + Pad2(minute);
        options := options + [timeString];
        minute := minute + 30;
      }
      hour := hour + 1;
    }
  }

  /** There are 28 options, 09:00 first and 22:30 last, each the time 09:00 + 30i. */
  lemma TimeOptionsElements()
    ensures |TimeOptions()| == 28
    ensures forall i :: 0 <= i < 28 ==> TimeOptions()[i] == FormatTime(540 + 30 * i)
    ensures TimeOptions()[0] == FormatTime(9 * 60) && TimeOptions()[27] == FormatTime(22 * 60 + 30)
  {
    OptionsForElements(ClosingHour - OpeningHour + 1);
  }

  /** The options are in strictly increasing order both as minutes and as the
      strings the pickers compare. */
  lemma TimeOptionsOrdered()
    ensures |TimeOptions()| == 28
    ensures forall i, j :: 0 <= i < j < 28 ==> LexLess(TimeOptions()[i], TimeOptions()[j])
  {
    TimeOptionsElements();
    var opts := TimeOptions();
    forall i, j | 0 <= i < j < 28
      ensures LexLess(opts[i], opts[j])
    {
      assert opts[i] == FormatTime(540 + 30 * i) && opts[j] == FormatTime(540 + 30 * j);
      FormatTimeOrder(540 + 30 * i, 540 + 30 * j);
    }
  }

  // ---------------------------------------------------------------------------
  // Defaults, consistency and submission
  // ---------------------------------------------------------------------------

  /** The initial and reset form: 09:00-10:00, one hour, 11000, confirmed. */
  function DefaultForm(date: int): FormData
  {
    FormData("", "", "", Some(date), 540, 600, 1.0, 11000, Confirmed)
  }

  /** Hours and price agree with the time range whenever the range is non-empty. */
  predicate ConsistentForm(f: FormData)
  {
    f.start_time < f.end_time ==>
      f.total_hours == HoursBetween(f.start_time, f.end_time) && f.total_price == PriceFor(f.total_hours)
  }

  /** The hard-coded default hours and price are the ones its range gives. */
  lemma DefaultFormConsistent(date: int)
    ensures ConsistentForm(DefaultForm(date))
    ensures ValidateForm(DefaultForm(date)) == Rejected(NameRequired)
  {
    HalfHourPrice(540, 2);
  }

  /** Every edit keeps hours and price in step with a non-empty time range. */
  lemma ChangeKeepsConsistent(prev: FormData, change: FieldChange)
    requires ConsistentForm(prev)
    ensures ConsistentForm(HandleInputChange(prev, change))
  {
  }

  /** `JSON.stringify(formData)` as the POST endpoint reads it. */
  function ToRequest(f: FormData): CreateRequest
  {
    CreateRequest(f.reserver_name, f.phone_number, Some(f.email), f.booking_date,
                  Some(f.start_time), Some(f.end_time), f.total_hours, f.total_price,
                  None, Some(f.status))
  }

  /** A form that passes `validateForm` with hours and price in step with its range
      is never refused by the server for a missing field. */
  lemma ValidFormHasAllRequired(f: FormData)
    requires ValidateForm(f) == Accepted && ConsistentForm(f)
    ensures HasAllRequired(ToRequest(f))
  {
    var req := ToRequest(f);
    assert f.reserver_name != "" by {
      if f.reserver_name == "" { assert IsBlank(f.reserver_name); }
    }
    assert f.phone_number != "" by {
      if f.phone_number == "" { assert IsBlank(f.phone_number); }
    }
    var hours := HoursBetween(f.start_time, f.end_time);
    assert hours * 10000.0 * 1.1 >= 1.0 / 60.0 * 11000.0;
    forall k | 0 <= k < |RequiredFields|
      ensures !IsFalsy(req, RequiredFields[k])
    {
    }
  }

  class CreateBookingForm {
    var formData: FormData
    var open: bool
    /** The `selectedDate` prop, as a day number. */
    const selectedDate: Option<int>

    /** `selectedDate` when given, otherwise today's date. */
    function DefaultDate(today: int): int
      reads this
    {
      if selectedDate.Some? then selectedDate.value else today
    }

    constructor (selected: Option<int>, today: int, isOpen: bool)
      ensures selectedDate == selected && open == isOpen
      ensures formData == DefaultForm(if selected.Some? then selected.value else today)
      ensures ConsistentForm(formData)
    {
      selectedDate := selected;
      open := isOpen;
      formData := DefaultForm(if selected.Some? then selected.value else today);
      new;
      DefaultFormConsistent(formData.booking_date.value);
    }

    method OnChange(change: FieldChange)
      modifies this
      ensures formData == HandleInputChange(old(formData), change) && open == old(open)
      ensures old(ConsistentForm(formData)) ==> ConsistentForm(formData)
    {
      if ConsistentForm(formData) {
        ChangeKeepsConsistent(formData, change);
      }
      formData := HandleInputChange(formData, change);
    }

    /** `handleCancel`: restore the defaults and close. */
    method HandleCancel(today: int)
      modifies this
      ensures formData == DefaultForm(DefaultDate(today)) && !open
      ensures ConsistentForm(formData)
    {
      formData := DefaultForm(DefaultDate(today));
      DefaultFormConsistent(DefaultDate(today));
      open := false;
    }

    /** `handleSubmit`: validate, send the form to the POST endpoint, and on success
        hand back the created booking, close and reset. A refused form or a failed
        request leaves the form as it was. */
    method HandleSubmit(table: BookingTable, newId: string, now: int, today: int) returns (created: Option<Booking>)
      requires table.Valid()
      requires forall i :: 0 <= i < |table.rows| ==> table.rows[i].id != newId
      modifies this, table
      ensures table.Valid()
      ensures ValidateForm(old(formData)) != Accepted ==> created.None? && table.rows == old(table.rows)
      ensures ValidateForm(old(formData)) == Accepted ==>
        var resp := CreateOutcome(old(table.rows), ToRequest(old(formData)), newId, now);
        && (resp.Created? ==> created == Some(resp.booking) && table.rows == old(table.rows) + [resp.booking])
        && (!resp.Created? ==> created.None? && table.rows == old(table.rows))
      ensures created.Some? ==> formData == DefaultForm(DefaultDate(today)) && !open
      ensures created.None? ==> formData == old(formData) && open == old(open)
    {
      if ValidateForm(formData) != Accepted {
        return None;
      }
      var resp := Post(table, ToRequest(formData), newId, now);
      if resp.Created? {
        formData := DefaultForm(DefaultDate(today));
        open := false;
        return Some(resp.booking);
      }
      return None;
    }
  }
}
