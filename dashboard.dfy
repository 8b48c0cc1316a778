/** The administrator dashboard's list logic (src/app/admin/dashboard/page.tsx): the
    status, search and date-range filters, the local list updates after an edit or a
    creation, and the statistics cards.

    Instants are UTC milliseconds. `new Date("YYYY-MM-DD")` is UTC midnight of that
    date, while `isSameDay`, `getDay`, `setDate` and `startOfMonth` work in the
    browser's local time, given here by its offset in minutes east of UTC. */
module AdminDashboard {
  import opened Common
  import opened Store
  import opened CalendarGrid

  datatype DateRange = Today | Week | Month | All

  /** The filter controls: the status select ("all" or a status name), the search
      box, the range buttons, and the month of the date picked on the calendar. */
  datatype Filters = Filters(status: string, search: string, range: DateRange, selectedMonth: int)

  /** The current instant and the browser's UTC offset in minutes. */
  datatype LocalClock = LocalClock(now: int, offsetMinutes: int)

  function OffsetMs(clock: LocalClock): int
  {
    clock.offsetMinutes * 60000
  }

  /** The local calendar day of an instant. */
  function LocalDay(instant: int, clock: LocalClock): int
  {
    (instant + OffsetMs(clock)) / DayMs
  }

  /** The instant of local midnight starting local day `d`. */
  function LocalMidnight(d: int, clock: LocalClock): int
  {
    d * DayMs - OffsetMs(clock)
  }

  /** `new Date(booking.booking_date)`: UTC midnight of the booking's date. */
  function DateInstant(b: Booking): int
  {
    b.booking_date * DayMs
  }

  /** `booking.status === statusFilter`. */
  function HasStatusNamed(name: string): Booking -> bool
  {
    (b: Booking) => StatusName(b.status) == name
  }

  /** The search match: case-folded name, verbatim phone, or case-folded email when
      the booking has a non-empty one. */
  function SearchHit(term: string, lower: string -> string): Booking -> bool
  {
    (b: Booking) =>
      Contains(lower(b.reserver_name), lower(term))
      || Contains(b.phone_number, term)
      || (b.email.Some? && b.email.value != "" && Contains(lower(b.email.value), lower(term)))
  }

  /** The date-range test as the page writes it, comparing the booking's UTC-midnight
      instant with bounds built from the local clock: `startOfWeek` is `now` moved
      back to Sunday keeping its time of day, `endOfWeek` six days later, and the
      month bounds are local midnight of the first day and the last millisecond of
      the last day of the selected month. */
  predicate InRangeAsWritten(range: DateRange, selectedMonth: int, clock: LocalClock, b: Booking)
  {
    var today := LocalDay(clock.now, clock);
    var weekStart := clock.now - Weekday(today) * DayMs;
    match range
    case Today => LocalDay(DateInstant(b), clock) == today
    case Week => weekStart <= DateInstant(b) <= weekStart + 6 * DayMs
    case Month =>
      LocalMidnight(MonthFirstDay(selectedMonth), clock) <= DateInstant(b)
      <= LocalMidnight(MonthLastDay(selectedMonth) + 1, clock) - 1
    case All => true
  }

  function InRange(range: DateRange, selectedMonth: int, clock: LocalClock): Booking -> bool
  {
    (b: Booking) => InRangeAsWritten(range, selectedMonth, clock, b)
  }

  predicate StatusKeeps(f: Filters, b: Booking)
  {
    f.status != "all" ==> StatusName(b.status) == f.status
  }

  predicate SearchKeeps(f: Filters, lower: string -> string, b: Booking)
  {
    !IsBlank(f.search) ==> SearchHit(f.search, lower)(b)
  }

  /** Whether the dashboard shows a booking: each active filter keeps it. */
  predicate IsShown(f: Filters, clock: LocalClock, lower: string -> string, b: Booking)
  {
    StatusKeeps(f, b) && SearchKeeps(f, lower, b) && InRangeAsWritten(f.range, f.selectedMonth, clock, b)
  }

  function Shown(f: Filters, clock: LocalClock, lower: string -> string): Booking -> bool
  {
    (b: Booking) => IsShown(f, clock, lower, b)
  }

  function StatusPred(f: Filters): Booking -> bool
  {
    (b: Booking) => StatusKeeps(f, b)
  }

  function StatusSearchPred(f: Filters, lower: string -> string): Booking -> bool
  {
    (b: Booking) => StatusKeeps(f, b) && SearchKeeps(f, lower, b)
  }

  /** After the status step, the list is the bookings the status filter keeps. */
  lemma StatusStep(bookings: seq<Booking>, f: Filters)
    ensures (if f.status != "all" then Filter(bookings, HasStatusNamed(f.status)) else bookings)
            == Filter(bookings, StatusPred(f))
  {
    if f.status != "all" {
      FilterEquivalent(bookings, HasStatusNamed(f.status), StatusPred(f));
    } else {
      FilterAll(bookings, StatusPred(f));
    }
  }

  /** After the search step, the list is the bookings both filters so far keep. */
  lemma SearchStep(bookings: seq<Booking>, f: Filters, lower: string -> string)
    ensures var s := Filter(bookings, StatusPred(f));
      (if !IsBlank(f.search) then Filter(s, SearchHit(f.search, lower)) else s)
      == Filter(bookings, StatusSearchPred(f, lower))
  {
    if !IsBlank(f.search) {
      FilterConjunction(bookings, StatusPred(f), SearchHit(f.search, lower), StatusSearchPred(f, lower));
    } else {
      FilterEquivalent(bookings, StatusPred(f), StatusSearchPred(f, lower));
    }
  }

  /** After the date step, the list is the bookings `Shown` keeps. */
  lemma RangeStep(bookings: seq<Booking>, f: Filters, clock: LocalClock, lower: string -> string)
    ensures var s := Filter(bookings, StatusSearchPred(f, lower));
      (if f.range != All then Filter(s, InRange(f.range, f.selectedMonth, clock)) else s)
      == Filter(bookings, Shown(f, clock, lower))
  {
    if f.range != All {
      FilterConjunction(bookings, StatusSearchPred(f, lower), InRange(f.range, f.selectedMonth, clock), Shown(f, clock, lower));
    } else {
      FilterEquivalent(bookings, StatusSearchPred(f, lower), Shown(f, clock, lower));
    }
  }

  /** `applyFilters()`: the status filter unless "all", then the search filter when
      the term is not blank, then the date-range switch, each narrowing `filtered`.
      The result is the bookings `Shown` keeps, in their order. */
  method ApplyFilters(bookings: seq<Booking>, f: Filters, clock: LocalClock, lower: string -> string)
    returns (filtered: seq<Booking>)
    ensures filtered == Filter(bookings, Shown(f, clock, lower))
  {
    filtered := bookings;
    if f.status != "all" {
      filtered := Filter(filtered, HasStatusNamed(f.status));
    }
    StatusStep(bookings, f);
    if !IsBlank(f.search) {
      filtered := Filter(filtered, SearchHit(f.search, lower));
    }
    SearchStep(bookings, f, lower);
    match f.range {
      case Today => filtered := Filter(filtered, InRange(Today, f.selectedMonth, clock));
      case Week => filtered := Filter(filtered, InRange(Week, f.selectedMonth, clock));
      case Month => filtered := Filter(filtered, InRange(Month, f.selectedMonth, clock));
      case All =>
    }
    RangeStep(bookings, f, clock, lower);
  }

  /** The shown list is an order-preserving sub-list of the loaded bookings holding
      exactly the bookings every active filter keeps; with status "all", a blank
      search and range `All` it is the whole list. */
  lemma ShownSpec(bookings: seq<Booking>, f: Filters, clock: LocalClock, lower: string -> string, b: Booking)
    ensures IsSubsequence(Filter(bookings, Shown(f, clock, lower)), bookings)
    ensures b in Filter(bookings, Shown(f, clock, lower)) <==>
      && b in bookings
      && (f.status != "all" ==> StatusName(b.status) == f.status)
      && (!IsBlank(f.search) ==> SearchHit(f.search, lower)(b))
      && InRangeAsWritten(f.range, f.selectedMonth, clock, b)
    ensures f.status == "all" && IsBlank(f.search) && f.range == All ==>
      Filter(bookings, Shown(f, clock, lower)) == bookings
  {
    FilterIsSubsequence(bookings, Shown(f, clock, lower));
    FilterMembership(bookings, Shown(f, clock, lower), b);
    if f.status == "all" && IsBlank(f.search) && f.range == All {
      FilterAll(bookings, Shown(f, clock, lower));
    }
  }

  /** A whitespace-only term searches nothing; any other term keeps a booking exactly
      when its name or email (case-folded) or its phone (verbatim) contains it. */
  lemma SearchSpec(bookings: seq<Booking>, f: Filters, clock: LocalClock, lower: string -> string, b: Booking)
    requires f.status == "all" && f.range == All
    ensures IsBlank(f.search) ==> Filter(bookings, Shown(f, clock, lower)) == bookings
    ensures !IsBlank(f.search) ==>
      (b in Filter(bookings, Shown(f, clock, lower)) <==>
        b in bookings &&
        (Contains(lower(b.reserver_name), lower(f.search)) || Contains(b.phone_number, f.search)
         || (b.email.Some? && b.email.value != "" && Contains(lower(b.email.value), lower(f.search)))))
  {
    ShownSpec(bookings, f, clock, lower, b);
  }

  // ---------------------------------------------------------------------------
  // The date filters compared with the calendar days they are meant to select
  // ---------------------------------------------------------------------------

  /** The date-range test on calendar days: the booking's date against today's
      local date, the local Sunday-to-Saturday week around it, or the selected month. */
  predicate InRangeByDay(range: DateRange, selectedMonth: int, clock: LocalClock, b: Booking)
  {
    var today := LocalDay(clock.now, clock);
    match range
    case Today => b.booking_date == today
    case Week => today - Weekday(today) <= b.booking_date <= today - Weekday(today) + 6
    case Month => InMonth(b.booking_date, selectedMonth)
    case All => true
  }

  /** Local day `d` is the day whose local midnights bracket `instant`. */
  lemma LocalDayBounds(instant: int, clock: LocalClock, d: int)
    ensures LocalDay(instant, clock) == d <==>
      LocalMidnight(d, clock) <= instant < LocalMidnight(d + 1, clock)
  {
    var x := instant + OffsetMs(clock);
    var q := x / DayMs;
    assert q * DayMs <= x < q * DayMs + DayMs;
    if d < q {
      assert (d + 1) * DayMs <= q * DayMs;
    } else if d > q {
      assert d * DayMs >= (q + 1) * DayMs;
    }
  }

  /** The day-based tests select calendar days: "today" keeps the bookings whose
      date's local midnights bracket the current instant, "week" those dated in the
      Sunday-to-Saturday week containing today, and "month" those dated from the
      first day of the selected month up to, not including, the first day of the
      next one. */
  lemma ByDayRangesSelectCalendarDays(clock: LocalClock, selectedMonth: int, b: Booking)
    ensures var today := LocalDay(clock.now, clock);
      && (InRangeByDay(Today, selectedMonth, clock, b) <==>
            LocalMidnight(b.booking_date, clock) <= clock.now < LocalMidnight(b.booking_date + 1, clock))
      && (InRangeByDay(Week, selectedMonth, clock, b) <==>
            StartOfWeek(today) <= b.booking_date <= EndOfWeek(today))
      && Weekday(StartOfWeek(today)) == 0
      && StartOfWeek(today) <= today <= EndOfWeek(today) == StartOfWeek(today) + 6
      && (InRangeByDay(Month, selectedMonth, clock, b) <==>
            MonthFirstDay(selectedMonth) <= b.booking_date < MonthFirstDay(selectedMonth + 1))
  {
    LocalDayBounds(clock.now, clock, b.booking_date);
    MonthsAreConsecutive(selectedMonth);
  }

  /** The day-based tests depend on the clock only through today's local date: two
      instants of the same local day, in any time zones, keep the same bookings. */
  lemma ByDayIgnoresTimeOfDay(range: DateRange, selectedMonth: int, c1: LocalClock, c2: LocalClock, b: Booking)
    requires LocalDay(c1.now, c1) == LocalDay(c2.now, c2)
    ensures InRangeByDay(range, selectedMonth, c1, b) == InRangeByDay(range, selectedMonth, c2, b)
  {
  }

  /** East of UTC by less than a day (the site's own +09:00 included), the page's
      "today" and "month" tests agree with the calendar-day tests; only "week" differs. */
  lemma TodayAndMonthAgreeEastOfUtc(clock: LocalClock, selectedMonth: int, b: Booking)
    requires 0 <= clock.offsetMinutes < 1440
    ensures InRangeAsWritten(Today, selectedMonth, clock, b) == InRangeByDay(Today, selectedMonth, clock, b)
    ensures InRangeAsWritten(Month, selectedMonth, clock, b) == InRangeByDay(Month, selectedMonth, clock, b)
  {
    var off := OffsetMs(clock);
    var d := b.booking_date;
    assert 0 <= off < DayMs;
    assert LocalDay(DateInstant(b), clock) == d by {
      assert d * DayMs + off == DayMs * d + off;
    }
    var first, last := MonthFirstDay(selectedMonth), MonthLastDay(selectedMonth);
    assert LocalMidnight(first, clock) <= DateInstant(b) <==> first <= d by {
      if d < first {
        assert d * DayMs <= first * DayMs - DayMs;
      } else {
        assert d * DayMs >= first * DayMs;
      }
    }
    assert DateInstant(b) <= LocalMidnight(last + 1, clock) - 1 <==> d <= last by {
      if d <= last {
        assert d * DayMs <= last * DayMs;
      } else {
        assert d * DayMs >= (last + 1) * DayMs;
      }
    }
  }

  /** In Seoul (+09:00) on Sunday 4 January 1970 at 10:00 local time, a booking for
      that very Sunday is left out of "this week", though the day-based test keeps it. */
  lemma WeekFilterDropsFirstDay(b: Booking)
    requires b.booking_date == 3
    ensures var clock := LocalClock(3 * DayMs + 3600000, 540);
      && LocalDay(clock.now, clock) == 3 && Weekday(3) == 0
      && !InRangeAsWritten(Week, 0, clock, b)
      && InRangeByDay(Week, 0, clock, b)
  {
  }

  /** In New York (-05:00) at 07:00 local time on 4 January 1970, a booking for that
      day is not shown under "today", though the day-based test keeps it. */
  lemma TodayFilterMissesTodayWestOfUtc(b: Booking)
    requires b.booking_date == 3
    ensures var clock := LocalClock(3 * DayMs + 12 * 3600000, -300);
      && LocalDay(clock.now, clock) == 3
      && !InRangeAsWritten(Today, 0, clock, b)
      && InRangeByDay(Today, 0, clock, b)
  {
  }

  /** In New York (-05:00) with January 1970 selected, "month" hides a booking dated
      1 January (its UTC midnight falls before local midnight of the 1st) and shows
      one dated 1 February (its UTC midnight falls before local midnight of the 1st
      of February); the day-based test does the opposite for both. */
  lemma MonthFilterShiftedWestOfUtc(first: Booking, next: Booking)
    requires first.booking_date == 0 && next.booking_date == 31
    ensures var clock := LocalClock(10 * DayMs, -300);
      && MonthFirstDay(0) == 0 && MonthLastDay(0) == 30
      && !InRangeAsWritten(Month, 0, clock, first) && InRangeByDay(Month, 0, clock, first)
      && InRangeAsWritten(Month, 0, clock, next) && !InRangeByDay(Month, 0, clock, next)
  {
  }

  // ---------------------------------------------------------------------------
  // Local list updates and statistics
  // ---------------------------------------------------------------------------

  /** `handleBookingUpdate`: every entry with the updated booking's id is replaced by it. */
  function ReplaceById(bookings: seq<Booking>, updated: Booking): (r: seq<Booking>)
    ensures |r| == |bookings|
    ensures forall i :: 0 <= i < |bookings| ==> r[i].id == bookings[i].id
    ensures forall i :: 0 <= i < |bookings| && bookings[i].id != updated.id ==> r[i] == bookings[i]
    ensures forall i :: 0 <= i < |bookings| && bookings[i].id == updated.id ==> r[i] == updated
  {
    if bookings == [] then []
    else [if bookings[0].id == updated.id then updated else bookings[0]] + ReplaceById(bookings[1..], updated)
  }

  /** When the edit the detail dialog reports is a status change made in the store,
      replacing it in the local list gives the same list as the store's own update:
      the dashboard stays in step with the table. */
  lemma ReplaceMirrorsStatusUpdate(bookings: seq<Booking>, i: nat, status: Status, now: int)
    requires UniqueIds(bookings) && i < |bookings|
    ensures ReplaceById(bookings, bookings[i].(status := status, updated_at := now))
            == SetStatus(bookings, bookings[i].id, status, now)
  {
    var u := bookings[i].(status := status, updated_at := now);
    var a, c := ReplaceById(bookings, u), SetStatus(bookings, bookings[i].id, status, now);
    forall k | 0 <= k < |bookings|
      ensures a[k] == c[k]
    {
      if bookings[k].id == u.id {
        assert k == i;
      }
    }
  }

  /** Replacing keeps every id, so ids stay unique. */
  lemma ReplaceKeepsUniqueIds(bookings: seq<Booking>, updated: Booking)
    requires UniqueIds(bookings)
    ensures UniqueIds(ReplaceById(bookings, updated))
  {
  }

  /** `handleBookingCreated`: the new booking goes first. */
  function Prepend(bookings: seq<Booking>, b: Booking): seq<Booking>
  {
    [b] + bookings
  }

  /** Prepending grows the list by one and keeps it newest first when the new
      booking is at least as new as every loaded one. */
  lemma PrependKeepsNewestFirst(bookings: seq<Booking>, b: Booking)
    requires NewestFirst(bookings)
    requires forall i :: 0 <= i < |bookings| ==> bookings[i].created_at <= b.created_at
    ensures |Prepend(bookings, b)| == |bookings| + 1 && Prepend(bookings, b)[0] == b
    ensures Prepend(bookings, b)[1..] == bookings
    ensures NewestFirst(Prepend(bookings, b))
  {
    var r := Prepend(bookings, b);
    assert r[1..] == bookings;
    forall i, j | 0 <= i < j < |r|
      ensures r[i].created_at >= r[j].created_at
    {
      if i > 0 {
        assert r[i] == bookings[i - 1] && r[j] == bookings[j - 1];
      }
    }
  }

  /** The statistics cards. */
  datatype Stats = Stats(total: nat, confirmed: nat, pending: nat, cancelled: nat, todayBookings: nat)

  function IsToday(clock: LocalClock): Booking -> bool
  {
    (b: Booking) => LocalDay(DateInstant(b), clock) == LocalDay(clock.now, clock)
  }

  /** `stats`: each status card counts the bookings of that status, the three add up
      to the total, and the bookings of today are among them. */
  function ComputeStats(bookings: seq<Booking>, clock: LocalClock): (s: Stats)
    ensures s.total == |bookings|
    ensures s.confirmed == |Filter(bookings, HasStatus(Confirmed))|
    ensures s.pending == |Filter(bookings, HasStatus(Pending))|
    ensures s.cancelled == |Filter(bookings, HasStatus(Cancelled))|
    ensures s.confirmed + s.pending + s.cancelled == s.total
    ensures s.todayBookings <= s.total
  {
    StatusCountsSumToTotal(bookings);
    Stats(|bookings|, CountStatus(bookings, Confirmed), CountStatus(bookings, Pending),
          CountStatus(bookings, Cancelled), Count(bookings, IsToday(clock)))
  }
}
