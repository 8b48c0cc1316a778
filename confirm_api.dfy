/** The booking confirmation endpoint (src/app/api/booking/confirm/route.ts): it
    marks one stored booking `confirmed` and stamps `updated_at`, whatever its status
    was before. The route as written does not look at the room's other bookings, so
    confirming a pending booking can put two confirmed bookings on the same range;
    `ConfirmChecked` is the variant that refuses in that case. */
module ConfirmApi {
  import opened Common
  import opened Store
  import opened AdminReservationsApi

  /** The route's answers: 400 for a missing id, 500 when the update matched no row,
      and the updated row otherwise. `SlotTaken` (409) is only given by `ConfirmChecked`. */
  datatype ConfirmResponse = MissingBookingId | UpdateFailed | SlotTaken | ConfirmedBooking(booking: Booking)

  /** `!bookingId` for a string field of the JSON body; `None` is an absent or null field. */
  predicate IsFalsyId(bookingId: Option<string>)
  {
    bookingId.None? || bookingId.value == ""
  }

  predicate HasRow(rows: seq<Booking>, id: string)
  {
    exists i :: 0 <= i < |rows| && rows[i].id == id
  }

  /** The rows after a confirmation of `id`: that row becomes confirmed with a new
      update stamp, whatever its status was; no other row and no other field changes. */
  lemma ConfirmRowsSpec(rows: seq<Booking>, id: string, now: int)
    ensures |SetStatus(rows, id, Confirmed, now)| == |rows|
    ensures forall i :: 0 <= i < |rows| && rows[i].id == id ==>
      && SetStatus(rows, id, Confirmed, now)[i].status == Confirmed
      && SetStatus(rows, id, Confirmed, now)[i].updated_at == now
      && SetStatus(rows, id, Confirmed, now)[i] == rows[i].(status := Confirmed, updated_at := now)
    ensures forall i :: 0 <= i < |rows| && rows[i].id != id ==> SetStatus(rows, id, Confirmed, now)[i] == rows[i]
    ensures !HasRow(rows, id) ==> SetStatus(rows, id, Confirmed, now) == rows
  {
    if !HasRow(rows, id) {
      var r := SetStatus(rows, id, Confirmed, now);
      assert forall i :: 0 <= i < |rows| ==> r[i] == rows[i];
    }
  }

  /** A cancelled booking is confirmed like any other: the route does not look at the prior status. */
  lemma ConfirmRevivesCancelled(b: Booking, now: int)
    requires b.status == Cancelled
    ensures SetStatus([b], b.id, Confirmed, now) == [b.(status := Confirmed, updated_at := now)]
  {
    assert SetStatus([b], b.id, Confirmed, now)[0] == b.(status := Confirmed, updated_at := now);
  }

  /** `POST` on a table: check the id, then update the row with that id. */
  method Confirm(table: BookingTable, bookingId: Option<string>, now: int) returns (resp: ConfirmResponse)
    requires table.Valid()
    modifies table
    ensures table.Valid()
    ensures IsFalsyId(bookingId) ==> resp == MissingBookingId && table.rows == old(table.rows)
    ensures !IsFalsyId(bookingId) ==> table.rows == SetStatus(old(table.rows), bookingId.value, Confirmed, now)
    ensures !IsFalsyId(bookingId) ==> (resp == UpdateFailed <==> !HasRow(old(table.rows), bookingId.value))
    ensures resp.ConfirmedBooking? ==>
      exists i :: 0 <= i < |table.rows| && old(table.rows)[i].id == bookingId.value && table.rows[i] == resp.booking
        && resp.booking == old(table.rows)[i].(status := Confirmed, updated_at := now)
    ensures resp.MissingBookingId? || resp.UpdateFailed? || resp.ConfirmedBooking?
  {
    if bookingId.None? || bookingId.value == "" {
      return MissingBookingId;
    }
    var r := table.UpdateStatus(bookingId.value, Confirmed, now);
    if r.NoSuchBooking? {
      return UpdateFailed;
    }
    return ConfirmedBooking(r.booking);
  }

  // ---------------------------------------------------------------------------
  // The double booking the route allows, and the checked variant
  // ---------------------------------------------------------------------------

  /** A request for 09:00-10:00 on day 0 with the given status. */
  function HourRequest(status: Status): CreateRequest
  {
    CreateRequest("Kim", "010", None, Some(0), Some(540), Some(600), 1.0, 11000, Some(["09:00-10:00"]), Some(status))
  }

  /** Starting from an empty room: a pending 09:00-10:00 booking is created, then a
      confirmed one for the same hour (a pending booking does not block it), then the
      pending one is confirmed. The room then holds two confirmed bookings for the
      same hour. */
  lemma ConfirmCanDoubleBook()
    ensures var first := CreateOutcome([], HourRequest(Pending), "b", 1);
      && first.Created?
      && var second := CreateOutcome([first.booking], HourRequest(Confirmed), "a", 2);
      && second.Created?
      && var rows := [first.booking, second.booking];
      && NoDoubleBooking(rows)
      && !NoDoubleBooking(SetStatus(rows, "b", Confirmed, 3))
  {
    var req := HourRequest(Pending);
    assert HasAllRequired(req) by {
      forall k | 0 <= k < |RequiredFields| ensures !IsFalsy(req, RequiredFields[k]) { }
    }
    var first := CreateOutcome([], req, "b", 1);
    var req2 := HourRequest(Confirmed);
    assert HasAllRequired(req2) by {
      forall k | 0 <= k < |RequiredFields| ensures !IsFalsy(req2, RequiredFields[k]) { }
    }
    assert first.booking.status == Pending;
    var second := CreateOutcome([first.booking], req2, "a", 2);
    assert second.Created?;
    var rows := [first.booking, second.booking];
    var after := SetStatus(rows, "b", Confirmed, 3);
    assert after[0].status == Confirmed && after[1].status == Confirmed;
  }

  /** The rows other than the one with id `id`. */
  function OtherRows(rows: seq<Booking>, id: string): (r: seq<Booking>)
    ensures forall b :: b in r <==> b in rows && b.id != id
  {
    if rows == [] then []
    else if rows[0].id == id then OtherRows(rows[1..], id)
    else [rows[0]] + OtherRows(rows[1..], id)
  }

  /** The index of the row with id `id`. */
  function RowIndex(rows: seq<Booking>, id: string): (i: nat)
    requires HasRow(rows, id)
    ensures i < |rows| && rows[i].id == id
  {
    if rows[0].id == id then 0
    else
      assert HasRow(rows[1..], id) by {
        var k :| 0 <= k < |rows| && rows[k].id == id;
        assert rows[1..][k - 1].id == id;
      }
      1 + RowIndex(rows[1..], id)
  }

  /** Confirmation that first checks the row's range against the room's other
      confirmed bookings, as the creation endpoint does, and answers 409 on a clash. */
  function CheckedOutcome(rows: seq<Booking>, bookingId: Option<string>, now: int): ConfirmResponse
  {
    if IsFalsyId(bookingId) then MissingBookingId
    else if !HasRow(rows, bookingId.value) then UpdateFailed
    else
      var b := rows[RowIndex(rows, bookingId.value)];
      if !IsTimeSlotAvailable(OtherRows(rows, bookingId.value), b.booking_date, b.start_time, b.end_time) then SlotTaken
      else ConfirmedBooking(b.(status := Confirmed, updated_at := now))
  }

  /** The checked confirmation never puts two confirmed bookings on overlapping ranges. */
  lemma CheckedConfirmKeepsNoDoubleBooking(rows: seq<Booking>, bookingId: Option<string>, now: int)
    requires UniqueIds(rows) && NoDoubleBooking(rows)
    requires CheckedOutcome(rows, bookingId, now).ConfirmedBooking?
    ensures NoDoubleBooking(SetStatus(rows, bookingId.value, Confirmed, now))
  {
    var id := bookingId.value;
    var t := RowIndex(rows, id);
    var b := rows[t];
    var others := OtherRows(rows, id);
    var after := SetStatus(rows, id, Confirmed, now);
    forall i, j | 0 <= i < |after| && 0 <= j < |after| && i != j
      && after[i].booking_date == after[j].booking_date
      && after[i].status == Confirmed && after[j].status == Confirmed
      ensures !Overlaps(after[i].start_time, after[i].end_time, after[j].start_time, after[j].end_time)
    {
      if i == t {
        assert rows[j].id != id;
        assert rows[j] in others;
      } else if j == t {
        assert rows[i].id != id;
        assert rows[i] in others;
      } else {
        assert rows[i].id != id && rows[j].id != id;
      }
    }
  }

  /** `POST` with the availability check added before the update. */
  method ConfirmChecked(table: BookingTable, bookingId: Option<string>, now: int) returns (resp: ConfirmResponse)
    requires table.Valid()
    modifies table
    ensures table.Valid()
    ensures resp == CheckedOutcome(old(table.rows), bookingId, now)
    ensures resp.ConfirmedBooking? ==> table.rows == SetStatus(old(table.rows), bookingId.value, Confirmed, now)
    ensures !resp.ConfirmedBooking? ==> table.rows == old(table.rows)
  {
    if bookingId.None? || bookingId.value == "" {
      return MissingBookingId;
    }
    var id := bookingId.value;
    var i := 0;
    while i < |table.rows|
      invariant 0 <= i <= |table.rows|
      invariant forall k :: 0 <= k < i ==> table.rows[k].id != id
    {
      if table.rows[i].id == id {
        break;
      }
      i := i + 1;
    }
    if i == |table.rows| {
      return UpdateFailed;
    }
    var b := table.rows[i];
    assert RowIndex(table.rows, id) == i;
    if !IsTimeSlotAvailable(OtherRows(table.rows, id), b.booking_date, b.start_time, b.end_time) {
      return SlotTaken;
    }
    var r := table.UpdateStatus(id, Confirmed, now);
    resp := ConfirmedBooking(r.booking);
  }
}
