/** The administrator's reservation endpoint (src/app/api/admin/reservations/route.ts):
    GET lists every booking with optional date-range and status filters; POST
    creates a booking by hand after a required-field check and an availability
    check. A request body is a record of optional fields; a field that JavaScript
    would find falsy (missing, "", 0) is `None`, "" or 0 here. */
module AdminReservationsApi {
  import opened Common
  import opened Store
  import opened TimeSlots

  // ---------------------------------------------------------------------------
  // GET
  // ---------------------------------------------------------------------------

  /** The query string: `startDate` and `endDate` as day numbers when present and
      non-empty, and `status` as given ("" when absent). */
  datatype ListQuery = ListQuery(startDate: Option<int>, endDate: Option<int>, status: string)

  datatype ListResponse = ListResponse(data: seq<Booking>, total: nat, filtered: nat)

  function InDateRange(start: int, end: int): Booking -> bool
  {
    (b: Booking) => start <= b.booking_date <= end
  }

  function HasStatusName(status: string): Booking -> bool
  {
    (b: Booking) => StatusName(b.status) == status
  }

  /** The date filter, applied only when both bounds are given. */
  function DateFiltered(bookings: seq<Booking>, q: ListQuery): seq<Booking>
  {
    if q.startDate.Some? && q.endDate.Some? then Filter(bookings, InDateRange(q.startDate.value, q.endDate.value))
    else bookings
  }

  /** The status filter, applied unless the status is absent or "all". */
  function StatusFiltered(bookings: seq<Booking>, q: ListQuery): seq<Booking>
  {
    if q.status != "" && q.status != "all" then Filter(bookings, HasStatusName(q.status))
    else bookings
  }

  /** `GET`: all bookings newest first, filtered, with both counts. */
  function ListReservations(rows: seq<Booking>, q: ListQuery): (r: ListResponse)
    ensures r.total == |rows| && r.filtered == |r.data|
  {
    var bookings := GetBookings(rows);
    var data := StatusFiltered(DateFiltered(bookings, q), q);
    ListResponse(data, |bookings|, |data|)
  }

  /** Whether a booking passes the query's filters. */
  predicate Matches(b: Booking, q: ListQuery)
  {
    && (q.startDate.Some? && q.endDate.Some? ==> q.startDate.value <= b.booking_date <= q.endDate.value)
    && (q.status != "" && q.status != "all" ==> StatusName(b.status) == q.status)
  }

  lemma DateFilteredSpec(bookings: seq<Booking>, q: ListQuery, b: Booking)
    requires NewestFirst(bookings)
    ensures IsSubsequence(DateFiltered(bookings, q), bookings)
    ensures NewestFirst(DateFiltered(bookings, q))
    ensures b in DateFiltered(bookings, q) <==>
      b in bookings && (q.startDate.Some? && q.endDate.Some? ==> q.startDate.value <= b.booking_date <= q.endDate.value)
  {
    if q.startDate.Some? && q.endDate.Some? {
      var p := InDateRange(q.startDate.value, q.endDate.value);
      FilterIsSubsequence(bookings, p);
      FilterKeepsNewestFirst(bookings, p);
      FilterMembership(bookings, p, b);
    } else {
      SubsequenceReflexive(bookings);
    }
  }

  lemma StatusFilteredSpec(bookings: seq<Booking>, q: ListQuery, b: Booking)
    requires NewestFirst(bookings)
    ensures IsSubsequence(StatusFiltered(bookings, q), bookings)
    ensures NewestFirst(StatusFiltered(bookings, q))
    ensures b in StatusFiltered(bookings, q) <==>
      b in bookings && (q.status != "" && q.status != "all" ==> StatusName(b.status) == q.status)
  {
    if q.status != "" && q.status != "all" {
      var p := HasStatusName(q.status);
      FilterIsSubsequence(bookings, p);
      FilterKeepsNewestFirst(bookings, p);
      FilterMembership(bookings, p, b);
    } else {
      SubsequenceReflexive(bookings);
    }
  }

  /** The listed bookings keep the newest-first order of the full list, are drawn
      from it in order, and are exactly the stored bookings that pass the filters. */
  lemma ListReservationsSpec(rows: seq<Booking>, q: ListQuery, b: Booking)
    ensures IsSubsequence(ListReservations(rows, q).data, GetBookings(rows))
    ensures NewestFirst(ListReservations(rows, q).data)
    ensures b in ListReservations(rows, q).data <==> b in rows && Matches(b, q)
  {
    var bookings := GetBookings(rows);
    var dated := DateFiltered(bookings, q);
    assert b in bookings <==> b in rows by {
      assert b in bookings <==> b in multiset(bookings);
    }
    DateFilteredSpec(bookings, q, b);
    StatusFilteredSpec(dated, q, b);
    SubsequenceTransitive(StatusFiltered(dated, q), dated, bookings);
  }

  /** With no bounds and status "all", the listing is the whole table. */
  lemma ListAllIsEverything(rows: seq<Booking>)
    ensures ListReservations(rows, ListQuery(None, None, "all")).data == GetBookings(rows)
  {
  }

  // ---------------------------------------------------------------------------
  // POST
  // ---------------------------------------------------------------------------

  /** A POST body. Times are minutes since midnight, the date a day number;
      `None` stands for a missing or empty value. */
  datatype CreateRequest = CreateRequest(
    reserver_name: string,
    phone_number: string,
    email: Option<string>,
    booking_date: Option<int>,
    start_time: Option<nat>,
    end_time: Option<nat>,
    total_hours: real,
    total_price: int,
    selected_time_slots: Option<seq<string>>,
    status: Option<Status>)

  /** `requiredFields`, in the order they are checked. */
  datatype RequiredField = ReserverName | PhoneNumber | BookingDate | StartTime | EndTime | TotalHours | TotalPrice

  const RequiredFields: seq<RequiredField> := [ReserverName, PhoneNumber, BookingDate, StartTime, EndTime, TotalHours, TotalPrice]

  /** `!bookingData[field]`. */
  predicate IsFalsy(req: CreateRequest, f: RequiredField)
  {
    match f
    case ReserverName => req.reserver_name == ""
    case PhoneNumber => req.phone_number == ""
    case BookingDate => req.booking_date.None?
    case StartTime => req.start_time.None?
    case EndTime => req.end_time.None?
    case TotalHours => req.total_hours == 0.0
    case TotalPrice => req.total_price == 0
  }

  predicate HasAllRequired(req: CreateRequest)
  {
    forall k :: 0 <= k < |RequiredFields| ==> !IsFalsy(req, RequiredFields[k])
  }

  /** A request with every required field has a date and both times. */
  lemma RequiredPresent(req: CreateRequest)
    requires HasAllRequired(req)
    ensures req.reserver_name != "" && req.phone_number != ""
    ensures req.booking_date.Some? && req.start_time.Some? && req.end_time.Some?
    ensures req.total_hours != 0.0 && req.total_price != 0
  {
    assert !IsFalsy(req, RequiredFields[0]) && !IsFalsy(req, RequiredFields[1]) && !IsFalsy(req, RequiredFields[2]);
    assert !IsFalsy(req, RequiredFields[3]) && !IsFalsy(req, RequiredFields[4]) && !IsFalsy(req, RequiredFields[5]);
    assert !IsFalsy(req, RequiredFields[6]);
  }

  /** The first falsy field of `fields`, if any. */
  function FirstFalsy(req: CreateRequest, fields: seq<RequiredField>): (r: Option<RequiredField>)
    ensures r.None? <==> forall k :: 0 <= k < |fields| ==> !IsFalsy(req, fields[k])
    ensures r.Some? ==> exists k :: 0 <= k < |fields| && fields[k] == r.value && IsFalsy(req, r.value)
                          && forall m :: 0 <= m < k ==> !IsFalsy(req, fields[m])
  {
    if fields == [] then None
    else if IsFalsy(req, fields[0]) then Some(fields[0])
    else
      var r := FirstFalsy(req, fields[1..]);
      assert forall k :: 1 <= k < |fields| ==> fields[k] == fields[1..][k - 1];
      if r.Some? then
        var k :| 0 <= k < |fields[1..]| && fields[1..][k] == r.value && IsFalsy(req, r.value)
                 && forall m :: 0 <= m < k ==> !IsFalsy(req, fields[1..][m]);
        assert fields[k + 1] == r.value && forall m :: 0 <= m < k + 1 ==> !IsFalsy(req, fields[m]);
        r
      else r
  }

  /** The `for (const field of requiredFields)` loop with its early return. */
  method FindMissingField(req: CreateRequest) returns (missing: Option<RequiredField>)
    ensures missing == FirstFalsy(req, RequiredFields)
  {
    for i := 0 to |RequiredFields|
      invariant FirstFalsy(req, RequiredFields) == FirstFalsy(req, RequiredFields[i..])
    {
      assert RequiredFields[i..][1..] == RequiredFields[i + 1..];
      if IsFalsy(req, RequiredFields[i]) {
        return Some(RequiredFields[i]);
      }
    }
    return None;
  }

  datatype CreateResponse = BadRequest(field: RequiredField) | Conflict | Created(booking: Booking)

  /** `status || 'confirmed'`. */
  function StatusOrDefault(req: CreateRequest): Status
  {
    if req.status.Some? then req.status.value else Confirmed
  }

  /** `selected_time_slots || [`${start_time}-${end_time}`]`: an empty list is kept. */
  function SlotsOrDefault(req: CreateRequest): seq<string>
    requires req.start_time.Some? && req.end_time.Some?
  {
    if req.selected_time_slots.Some? then req.selected_time_slots.value
    else [SlotId(req.start_time.value, req.end_time.value)]
  }

  /** The row `createBooking` inserts for a request that passed both checks. */
  function NewRow(req: CreateRequest, newId: string, now: int): Booking
    requires HasAllRequired(req)
  {
    RequiredPresent(req);
    Booking(newId, req.reserver_name, req.phone_number, req.email, req.booking_date.value,
            req.start_time.value, req.end_time.value, req.total_hours, req.total_price,
            SlotsOrDefault(req), StatusOrDefault(req), now, now)
  }

  /** What POST answers on a table holding `rows`. */
  function CreateOutcome(rows: seq<Booking>, req: CreateRequest, newId: string, now: int): CreateResponse
  {
    var missing := FirstFalsy(req, RequiredFields);
    if missing.Some? then BadRequest(missing.value)
    else
    RequiredPresent(req);
    if !IsTimeSlotAvailable(rows, req.booking_date.value, req.start_time.value, req.end_time.value) then Conflict
    else Created(NewRow(req, newId, now))
  }

  /** `POST`: check the fields, check the range, fill in defaults, insert. */
  method Post(table: BookingTable, req: CreateRequest, newId: string, now: int) returns (resp: CreateResponse)
    requires table.Valid()
    requires forall i :: 0 <= i < |table.rows| ==> table.rows[i].id != newId
    modifies table
    ensures table.Valid()
    ensures resp == CreateOutcome(old(table.rows), req, newId, now)
    ensures resp.Created? ==> table.rows == old(table.rows) + [resp.booking]
    ensures !resp.Created? ==> table.rows == old(table.rows)
  {
    var missing := FindMissingField(req);
    if missing.Some? {
      return BadRequest(missing.value);
    }
    RequiredPresent(req);
    var start, end := req.start_time.value, req.end_time.value;
    var ranges := [TimeRange(start, end)];
    var available, _ := AreTimeSlotsAvailable(table.rows, req.booking_date.value, ranges);
    assert ranges[0] == TimeRange(start, end);
    if !available {
      return Conflict;
    }
    var draft := NewRow(req, "", 0);
    var b := table.Insert(draft, newId, now);
    return Created(b);
  }

  /** A request is refused with 400 exactly when a required field is falsy, and the
      field named is the first such in the fixed order. */
  lemma BadRequestIffMissing(rows: seq<Booking>, req: CreateRequest, newId: string, now: int)
    ensures CreateOutcome(rows, req, newId, now).BadRequest? <==> !HasAllRequired(req)
    ensures CreateOutcome(rows, req, newId, now).BadRequest? ==>
      exists k :: 0 <= k < |RequiredFields| && RequiredFields[k] == CreateOutcome(rows, req, newId, now).field
        && IsFalsy(req, RequiredFields[k]) && forall m :: 0 <= m < k ==> !IsFalsy(req, RequiredFields[m])
  {
  }

  /** A zero total price or zero hours is refused as missing, as the falsy test does. */
  lemma ZeroPriceIsMissing(rows: seq<Booking>, req: CreateRequest, newId: string, now: int)
    requires req.reserver_name != "" && req.phone_number != ""
    requires req.booking_date.Some? && req.start_time.Some? && req.end_time.Some?
    requires req.total_hours != 0.0 && req.total_price == 0
    ensures CreateOutcome(rows, req, newId, now) == BadRequest(TotalPrice)
  {
    assert !IsFalsy(req, RequiredFields[5]) && IsFalsy(req, RequiredFields[6]);
  }

  /** A complete request is refused with 409 exactly when a confirmed booking on
      that date matches the range; otherwise the stored row carries the request's
      fields, the defaults and the store's id and stamps. */
  lemma CreatedSpec(rows: seq<Booking>, req: CreateRequest, newId: string, now: int)
    requires HasAllRequired(req)
    requires req.booking_date.Some? && req.start_time.Some? && req.end_time.Some?
    ensures CreateOutcome(rows, req, newId, now).Conflict? <==>
      exists i :: 0 <= i < |rows| && BlocksRange(rows[i], req.booking_date.value, req.start_time.value, req.end_time.value)
    ensures CreateOutcome(rows, req, newId, now).Created? ==>
      var b := CreateOutcome(rows, req, newId, now).booking;
      && b.id == newId && b.created_at == now && b.updated_at == now
      && b.reserver_name == req.reserver_name && b.phone_number == req.phone_number && b.email == req.email
      && Some(b.booking_date) == req.booking_date && Some(b.start_time) == req.start_time
      && Some(b.end_time) == req.end_time
      && b.total_hours == req.total_hours && b.total_price == req.total_price
      && (req.status.None? ==> b.status == Confirmed) && (req.status.Some? ==> Some(b.status) == req.status)
      && (req.selected_time_slots.None? ==> b.selected_time_slots == [SlotId(b.start_time, b.end_time)])
      && (req.selected_time_slots.Some? ==> Some(b.selected_time_slots) == req.selected_time_slots)
  {
  }

  /** No two confirmed bookings on the same date overlap. */
  predicate NoDoubleBooking(rows: seq<Booking>)
  {
    forall i, j :: 0 <= i < |rows| && 0 <= j < |rows| && i != j
      && rows[i].booking_date == rows[j].booking_date
      && rows[i].status == Confirmed && rows[j].status == Confirmed
      ==> !Overlaps(rows[i].start_time, rows[i].end_time, rows[j].start_time, rows[j].end_time)
  }

  /** A booking created through POST never double-books the room. */
  lemma PostKeepsNoDoubleBooking(rows: seq<Booking>, req: CreateRequest, newId: string, now: int)
    requires NoDoubleBooking(rows)
    requires CreateOutcome(rows, req, newId, now).Created?
    ensures NoDoubleBooking(rows + [CreateOutcome(rows, req, newId, now).booking])
  {
    var b := CreateOutcome(rows, req, newId, now).booking;
    var rows' := rows + [b];
    forall i, j | 0 <= i < |rows'| && 0 <= j < |rows'| && i != j
      && rows'[i].booking_date == rows'[j].booking_date
      && rows'[i].status == Confirmed && rows'[j].status == Confirmed
      ensures !Overlaps(rows'[i].start_time, rows'[i].end_time, rows'[j].start_time, rows'[j].end_time)
    {
      if i < |rows| && j < |rows| {
        assert rows'[i] == rows[i] && rows'[j] == rows[j];
      }
    }
  }
}
