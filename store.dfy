/** The single booking table of the meeting room and the queries the application
    runs against it (src/lib/supabase.ts). The hosted table becomes an in-memory
    sequence of rows; each query becomes a function over that sequence, and each
    update a method of `BookingTable`. Times of day are minutes since midnight,
    dates are day numbers, timestamps are integers supplied by the caller. */
module Store {
  import opened Common

  datatype Status = Pending | Confirmed | Cancelled

  /** The name under which a status is stored and sent over HTTP. */
  function StatusName(s: Status): (name: string)
    ensures name in {"pending", "confirmed", "cancelled"}
  {
    match s
    case Pending => "pending"
    case Confirmed => "confirmed"
    case Cancelled => "cancelled"
  }

  lemma StatusNameInjective(s: Status, t: Status)
    requires StatusName(s) == StatusName(t)
    ensures s == t
  {
  }

  /** One row of the booking table. */
  datatype Booking = Booking(
    id: string,
    reserver_name: string,
    phone_number: string,
    email: Option<string>,
    booking_date: int,
    start_time: nat,
    end_time: nat,
    total_hours: real,
    total_price: int,
    selected_time_slots: seq<string>,
    status: Status,
    created_at: int,
    updated_at: int)

  /** A candidate `[startTime, endTime)` range on the booking date. */
  datatype TimeRange = TimeRange(startTime: nat, endTime: nat)

  // ---------------------------------------------------------------------------
  // Conflict detection
  // ---------------------------------------------------------------------------

  /** The three-clause `.or(...)` filter of the availability query, on a stored
      range `[bs, be)` against the candidate `[s, e)`. */
  predicate ConflictFilter(bs: int, be: int, s: int, e: int)
  {
    (bs <= s && be > s) || (bs < e && be >= e) || (bs >= s && be <= e)
  }

  /** Two half-open ranges share an instant. */
  predicate Overlaps(bs: int, be: int, s: int, e: int)
  {
    bs < e && s < be
  }

  /** The whole availability query: a row matches when it is confirmed, on the
      same date, and passes the three-clause filter. */
  predicate BlocksRange(b: Booking, date: int, s: nat, e: nat)
  {
    b.booking_date == date && b.status == Confirmed && ConflictFilter(b.start_time, b.end_time, s, e)
  }

  /** For well-formed ranges the three-clause filter is exactly the half-open
      overlap test; this is what keeps the room from being double-booked. */
  lemma ConflictFilterIsOverlap(bs: int, be: int, s: int, e: int)
    requires bs < be && s < e
    ensures ConflictFilter(bs, be, s, e) <==> Overlaps(bs, be, s, e)
  {
  }

  /** Whatever the ranges, every overlap is caught by the filter; so a range the
      query finds free overlaps no confirmed booking on that date. */
  lemma OverlapIsCaught(bs: int, be: int, s: int, e: int)
    requires Overlaps(bs, be, s, e)
    ensures ConflictFilter(bs, be, s, e)
  {
  }

  /** `isTimeSlotAvailable(date, startTime, endTime)`: no row matches the query. */
  function IsTimeSlotAvailable(rows: seq<Booking>, date: int, s: nat, e: nat): (r: bool)
    ensures r ==> forall i :: 0 <= i < |rows| && rows[i].booking_date == date && rows[i].status == Confirmed
                    ==> !Overlaps(rows[i].start_time, rows[i].end_time, s, e)
    ensures !r <==> exists i :: 0 <= i < |rows| && BlocksRange(rows[i], date, s, e)
  {
    if rows == [] then true
    else !BlocksRange(rows[0], date, s, e) && IsTimeSlotAvailable(rows[1..], date, s, e)
  }

  /** Every stored range is non-empty. */
  predicate WellFormedRows(rows: seq<Booking>)
  {
    forall i :: 0 <= i < |rows| ==> rows[i].start_time < rows[i].end_time
  }

  /** With well-formed stored ranges and a non-empty candidate, availability is
      exactly the absence of an overlapping confirmed booking on the same date. */
  lemma {:induction false} AvailableIffNoOverlap(rows: seq<Booking>, date: int, s: nat, e: nat)
    requires WellFormedRows(rows) && s < e
    ensures IsTimeSlotAvailable(rows, date, s, e) <==>
      forall i :: 0 <= i < |rows| && rows[i].booking_date == date && rows[i].status == Confirmed
        ==> !Overlaps(rows[i].start_time, rows[i].end_time, s, e)
  {
    if !IsTimeSlotAvailable(rows, date, s, e) {
      var i :| 0 <= i < |rows| && BlocksRange(rows[i], date, s, e);
      ConflictFilterIsOverlap(rows[i].start_time, rows[i].end_time, s, e);
    }
  }

  /** A row that is not confirmed, or lies on another date, never makes a range
      unavailable: adding it to the table changes no availability answer. */
  lemma {:induction false} OnlyConfirmedSameDateBlocks(rows: seq<Booking>, b: Booking, date: int, s: nat, e: nat)
    requires b.status != Confirmed || b.booking_date != date
    ensures IsTimeSlotAvailable(rows + [b], date, s, e) == IsTimeSlotAvailable(rows, date, s, e)
  {
    if rows == [] {
      assert rows + [b] == [b];
      assert ([b])[1..] == [];
    } else {
      assert (rows + [b])[1..] == rows[1..] + [b];
      OnlyConfirmedSameDateBlocks(rows[1..], b, date, s, e);
    }
  }

  /** Back-to-back ranges do not conflict: a confirmed 09:00-10:00 booking leaves
      10:00-11:00 free on the same date. */
  lemma AdjacentRangesDoNotConflict(b: Booking)
    requires b.status == Confirmed && b.start_time == 540 && b.end_time == 600
    ensures IsTimeSlotAvailable([b], b.booking_date, 600, 660)
    ensures !IsTimeSlotAvailable([b], b.booking_date, 570, 630)
  {
    assert ([b])[1..] == [];
  }

  /** `areTimeSlotsAvailable(date, timeSlots)`: asks the availability query for
      each range in turn and stops at the first range that is taken. `queries`
      is the number of availability queries issued. */
  method AreTimeSlotsAvailable(rows: seq<Booking>, date: int, ranges: seq<TimeRange>) returns (ok: bool, queries: nat)
    ensures ok <==> forall k :: 0 <= k < |ranges| ==> IsTimeSlotAvailable(rows, date, ranges[k].startTime, ranges[k].endTime)
    ensures ok ==> queries == |ranges|
    ensures !ok ==> 1 <= queries <= |ranges|
    ensures !ok ==> !IsTimeSlotAvailable(rows, date, ranges[queries - 1].startTime, ranges[queries - 1].endTime)
    ensures !ok ==> forall k :: 0 <= k < queries - 1 ==> IsTimeSlotAvailable(rows, date, ranges[k].startTime, ranges[k].endTime)
  {
    queries := 0;
    for i := 0 to |ranges|
      invariant queries == i
      invariant forall k :: 0 <= k < i ==> IsTimeSlotAvailable(rows, date, ranges[k].startTime, ranges[k].endTime)
    {
      var available := IsTimeSlotAvailable(rows, date, ranges[i].startTime, ranges[i].endTime);
      queries := queries + 1;
      if !available {
        return false, queries;
      }
    }
    return true, queries;
  }

  /** The columns `getBookedTimeSlots` selects. */
  datatype BookedSlot = BookedSlot(start_time: nat, end_time: nat, selected_time_slots: seq<string>)

  function ProjectSlot(b: Booking): BookedSlot
  {
    BookedSlot(b.start_time, b.end_time, b.selected_time_slots)
  }

  /** `.eq('booking_date', date).eq('status', 'confirmed')`. */
  function ConfirmedOn(date: int): Booking -> bool
  {
    (b: Booking) => b.booking_date == date && b.status == Confirmed
  }

  /** `getBookedTimeSlots(date)`: the selected columns of every confirmed row on
      `date`, one entry per such row, in table order. */
  function GetBookedTimeSlots(rows: seq<Booking>, date: int): (r: seq<BookedSlot>)
    ensures |r| == |Filter(rows, ConfirmedOn(date))| <= |rows|
    ensures forall k :: 0 <= k < |r| ==> r[k] == ProjectSlot(Filter(rows, ConfirmedOn(date))[k])
    ensures forall x :: x in r <==> exists i :: 0 <= i < |rows| && rows[i].booking_date == date
                                       && rows[i].status == Confirmed && x == ProjectSlot(rows[i])
  {
    if rows == [] then []
    else
      var rest := GetBookedTimeSlots(rows[1..], date);
      assert forall i :: 1 <= i < |rows| ==> rows[i] == rows[1..][i - 1];
      if ConfirmedOn(date)(rows[0]) then
        assert Filter(rows, ConfirmedOn(date)) == [rows[0]] + Filter(rows[1..], ConfirmedOn(date));
        [ProjectSlot(rows[0])] + rest
      else
        assert Filter(rows, ConfirmedOn(date)) == Filter(rows[1..], ConfirmedOn(date));
        rest
  }

  // ---------------------------------------------------------------------------
  // Listing in creation order, newest first
  // ---------------------------------------------------------------------------

  function CreatedAt(b: Booking): int
  {
    b.created_at
  }

  predicate NewestFirst(s: seq<Booking>)
  {
    DescendingBy(s, CreatedAt)
  }

  /** `getBookings()`: every row, newest first. */
  function GetBookings(rows: seq<Booking>): (r: seq<Booking>)
    ensures NewestFirst(r) && multiset(r) == multiset(rows) && |r| == |rows|
  {
    var r := SortDescending(rows, CreatedAt);
    assert |multiset(r)| == |multiset(rows)|;
    r
  }

  function HasEmail(e: string): Booking -> bool
  {
    (b: Booking) => b.email == Some(e)
  }

  /** `getBookingsByEmail(email)`: the rows whose email equals `email`, newest first. */
  function GetBookingsByEmail(rows: seq<Booking>, e: string): (r: seq<Booking>)
  {
    Filter(GetBookings(rows), HasEmail(e))
  }

  lemma {:induction false} FilterKeepsNewestFirst(s: seq<Booking>, p: Booking -> bool)
    requires NewestFirst(s)
    ensures NewestFirst(Filter(s, p))
  {
    if s != [] {
      FilterKeepsNewestFirst(s[1..], p);
      var rest := Filter(s[1..], p);
      forall j | 0 <= j < |rest|
        ensures s[0].created_at >= rest[j].created_at
      {
        FilterMembership(s[1..], p, rest[j]);
      }
    }
  }

  /** The rows returned for an email are exactly the rows with that email (counted
      with multiplicity), every one carries that email, and they come newest first. */
  lemma BookingsByEmailSpec(rows: seq<Booking>, e: string)
    ensures multiset(GetBookingsByEmail(rows, e)) == multiset(Filter(rows, HasEmail(e)))
    ensures forall i :: 0 <= i < |GetBookingsByEmail(rows, e)| ==> GetBookingsByEmail(rows, e)[i].email == Some(e)
    ensures NewestFirst(GetBookingsByEmail(rows, e))
  {
    FilterRespectsPermutation(GetBookings(rows), rows, HasEmail(e));
    FilterKeepsNewestFirst(GetBookings(rows), HasEmail(e));
  }

  // ---------------------------------------------------------------------------
  // Counting by status
  // ---------------------------------------------------------------------------

  function HasStatus(st: Status): Booking -> bool
  {
    (b: Booking) => b.status == st
  }

  /** `bookings.filter(b => b.status === st).length`. */
  function CountStatus(rows: seq<Booking>, st: Status): nat
  {
    Count(rows, HasStatus(st))
  }

  /** Every row has exactly one of the three statuses, so the three counts add up
      to the number of rows. */
  lemma {:induction false} StatusCountsSumToTotal(rows: seq<Booking>)
    ensures CountStatus(rows, Confirmed) + CountStatus(rows, Pending) + CountStatus(rows, Cancelled) == |rows|
  {
    if rows != [] {
      StatusCountsSumToTotal(rows[1..]);
    }
  }

  // ---------------------------------------------------------------------------
  // The table and its updates
  // ---------------------------------------------------------------------------

  /** Every row with id `id` gets the new status and update stamp, as the SQL
      UPDATE does; every other row is untouched. */
  function SetStatus(rows: seq<Booking>, id: string, status: Status, now: int): (r: seq<Booking>)
    ensures |r| == |rows|
    ensures forall i :: 0 <= i < |rows| ==>
      r[i] == if rows[i].id == id then rows[i].(status := status, updated_at := now) else rows[i]
  {
    if rows == [] then []
    else [if rows[0].id == id then rows[0].(status := status, updated_at := now) else rows[0]]
         + SetStatus(rows[1..], id, status, now)
  }

  datatype UpdateResult = Updated(booking: Booking) | NoSuchBooking

  predicate UniqueIds(rows: seq<Booking>)
  {
    forall i, j :: 0 <= i < j < |rows| ==> rows[i].id != rows[j].id
  }

  class BookingTable {
    var rows: seq<Booking>

    /** Ids are primary keys. */
    ghost predicate Valid()
      reads this
    {
      UniqueIds(rows)
    }

    constructor (initial: seq<Booking>)
      requires UniqueIds(initial)
      ensures Valid() && rows == initial
    {
      rows := initial;
    }

    /** `updateBookingStatus(id, status)`: rewrites `status` and `updated_at` of
        the row with that id and returns it; with no such row nothing changes and
        the call fails. */
    method UpdateStatus(id: string, status: Status, now: int) returns (r: UpdateResult)
      requires Valid()
      modifies this
      ensures Valid()
      ensures rows == SetStatus(old(rows), id, status, now)
      ensures r.NoSuchBooking? <==> forall i :: 0 <= i < |old(rows)| ==> old(rows)[i].id != id
      ensures r.Updated? ==> exists i :: 0 <= i < |rows| && old(rows)[i].id == id && r.booking == rows[i]
                               && r.booking == old(rows)[i].(status := status, updated_at := now)
      ensures r.NoSuchBooking? ==> rows == old(rows)
    {
      var i := 0;
      while i < |rows|
        invariant 0 <= i <= |rows|
        invariant forall k :: 0 <= k < i ==> rows[k].id != id
      {
        if rows[i].id == id {
          var updated := rows[i].(status := status, updated_at := now);
          ghost var before := rows;
          rows := rows[i := updated];
          assert forall k :: 0 <= k < |before| && k != i ==> before[k].id != id;
          return Updated(updated);
        }
        i := i + 1;
      }
      return NoSuchBooking;
    }

    /** `createBooking(booking)`: inserts the row; the store assigns the id and
        the creation and update stamps. */
    method Insert(draft: Booking, newId: string, now: int) returns (b: Booking)
      requires Valid()
      requires forall i :: 0 <= i < |rows| ==> rows[i].id != newId
      modifies this
      ensures Valid()
      ensures b == draft.(id := newId, created_at := now, updated_at := now)
      ensures rows == old(rows) + [b]
    {
      b := draft.(id := newId, created_at := now, updated_at := now);
      rows := rows + [b];
    }
  }
}
