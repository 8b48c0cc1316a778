/** The public reservations page (src/app/reservations/page.tsx): the search box over
    the loaded bookings, the status counters, and the "HH:MM" rendering of the times
    the table returns as "HH:MM:SS". */
module Reservations {
  import opened Common
  import opened Store
  import opened AdminDashboard

  /** The page's match: the case-folded name contains the case-folded term, or the
      phone number contains the term as typed. */
  function NameOrPhoneHit(term: string, lower: string -> string): Booking -> bool
  {
    (b: Booking) => Contains(lower(b.reserver_name), lower(term)) || Contains(b.phone_number, term)
  }

  /** The search effect: a term that is blank after trimming shows every booking,
      any other term the bookings it matches. */
  function SearchBookings(bookings: seq<Booking>, term: string, lower: string -> string): seq<Booking>
  {
    if IsBlank(term) then bookings else Filter(bookings, NameOrPhoneHit(term, lower))
  }

  /** The shown list is an order-preserving sub-list of the loaded one; a blank term
      shows it whole, and any other term keeps exactly the bookings whose name or
      phone matches. */
  lemma SearchBookingsSpec(bookings: seq<Booking>, term: string, lower: string -> string, b: Booking)
    ensures IsSubsequence(SearchBookings(bookings, term, lower), bookings)
    ensures IsBlank(term) ==> SearchBookings(bookings, term, lower) == bookings
    ensures !IsBlank(term) ==>
      (b in SearchBookings(bookings, term, lower) <==>
        b in bookings && (Contains(lower(b.reserver_name), lower(term)) || Contains(b.phone_number, term)))
  {
    if IsBlank(term) {
      SubsequenceReflexive(bookings);
    } else {
      FilterIsSubsequence(bookings, NameOrPhoneHit(term, lower));
      FilterMembership(bookings, NameOrPhoneHit(term, lower), b);
    }
  }

  /** The e-mail address plays no part in this page's search. */
  lemma SearchIgnoresEmail(bookings: seq<Booking>, term: string, lower: string -> string, b: Booking, email: Option<string>)
    requires b in bookings && b.(email := email) in bookings
    ensures b in SearchBookings(bookings, term, lower) <==> b.(email := email) in SearchBookings(bookings, term, lower)
  {
    SearchBookingsSpec(bookings, term, lower, b);
    SearchBookingsSpec(bookings, term, lower, b.(email := email));
  }

  /** Every booking this page finds, the dashboard's search (which also looks at the
      e-mail address) finds as well. */
  lemma PageSearchWithinDashboardSearch(bookings: seq<Booking>, term: string, lower: string -> string, b: Booking)
    requires !IsBlank(term)
    requires b in SearchBookings(bookings, term, lower)
    ensures SearchHit(term, lower)(b)
  {
    SearchBookingsSpec(bookings, term, lower, b);
  }

  /** The four counters above the list. */
  datatype Counters = Counters(total: nat, confirmed: nat, pending: nat, cancelled: nat)

  /** The counters: the list length and the number of bookings of each status; the
      three status counts add up to the total. */
  function CountBookings(bookings: seq<Booking>): (c: Counters)
    ensures c.total == |bookings|
    ensures c.confirmed + c.pending + c.cancelled == c.total
    ensures c.confirmed == |Filter(bookings, HasStatus(Confirmed))|
    ensures c.pending == |Filter(bookings, HasStatus(Pending))|
    ensures c.cancelled == |Filter(bookings, HasStatus(Cancelled))|
  {
    StatusCountsSumToTotal(bookings);
    Counters(|bookings|, CountStatus(bookings, Confirmed), CountStatus(bookings, Pending), CountStatus(bookings, Cancelled))
  }

  /** `timeString.substring(0, 5)`: the first five characters, or the whole string when shorter. */
  function TruncateTime(s: string): (r: string)
    ensures |r| == if |s| < 5 then |s| else 5
    ensures IsPrefix(r, s)
  {
    if |s| < 5 then s else s[..5]
  }

  /** The table's "HH:MM:SS" rendering of a time of day. */
  function DbTime(m: nat): string
  {
    FormatTime(m) + ":00"
  }

  /** Cutting a stored time to five characters gives its "HH:MM" form, and cutting
      twice is cutting once. */
  lemma TruncateDbTime(m: nat, s: string)
    requires m < 6000
    ensures TruncateTime(DbTime(m)) == FormatTime(m)
    ensures TruncateTime(TruncateTime(s)) == TruncateTime(s)
  {
    assert |FormatTime(m)| == 5;
    assert DbTime(m)[..5] == FormatTime(m);
  }
}
