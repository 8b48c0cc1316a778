# Meeting-room booking core, modelled in Dafny

This project models the booking logic of a single-room booking site. The site is a Next.js application backed by one hosted `BookingList` table. The model covers:

- **Store** (`store.dfy`): the table as an in-memory sequence of rows, and the queries and updates of `src/lib/supabase.ts`. These are the availability query with its three-clause overlap filter, the multi-range check, the booked-slot and by-email listings, the status update and the insert.
- **TimeSlots** (`slots.dfy`): the thirteen-hour slot grid of the booking screen and the click that toggles a slot.
- **BookingWizard** (`wizard.dfy`): the booking sheet, with its price (base plus a floored 10% tax), its "HH:MM - HH:MM" range line and its two-step state machine.
- **AdminReservationsApi** (`admin_api.dfy`): the administrator's reservations endpoint. GET filters by date range and status. POST checks the required fields, then availability (409), then fills in defaults and inserts.
- **AdminBookingForm** (`admin_form.dfy`): the administrator's "add booking" dialog. It recomputes hours and price on a time change, validates, builds the half-hour time options, and handles submit and cancel.
- **ConfirmApi** (`confirm_api.dfy`): the confirmation endpoint, which sets one booking to `confirmed`. It also holds a checked variant that refuses a confirmation which would double-book the room.
- **AdminDashboard** (`dashboard.dfy`): the dashboard's list logic. This is the status, search and date-range filters, the local list updates after an edit or a creation, and the statistics cards.
- **Reservations** (`reservations.dfy`): the public reservations page, with its search, its status counters and its "HH:MM" time rendering.
- **CalendarGrid** (`calendar.dfy`): the month calendar. It builds week rows of seven day cells with their disabled, selected and current-month flags, and moves one month back or forward.

`common.dfy` holds the shared pieces:

- a `Filter` over sequences, with its membership, sub-sequence, composition and permutation lemmas;
- a stable descending sort;
- the zero-padded "HH:MM" rendering `FormatTime`, with the proof that its lexical order is numeric order.

The last is what lets times be modelled as minutes while the source compares strings.

Representation choices:

- **Times of day** are minutes since midnight.
- **Booking dates** are day numbers, with day 0 = 1970-01-01.
- **Months** are counted from January 1970.
- **Dashboard instants** are UTC milliseconds, read against a local clock: the current instant and the browser's offset in minutes east of UTC.
- **`toLowerCase`** is an arbitrary function `lower` passed in.
- **Server-assigned values** are parameters. These are ids, timestamps and the random availability draws.
- **Request bodies** are records of optional fields. A value JavaScript finds falsy (absent, `""`, `0`) is `None`, `""` or `0`.
- **State-changing code** is a class whose methods modify its fields. This covers the table, the booking sheet, the admin form and the calendar.
- **Step-by-step code** becomes a method proved equal to a specification function. The loops are `generateTimeSlots`, `generateTimeOptions`, the required-field loop, `areTimeSlotsAvailable` and the calendar's render loop. `applyFilters` narrows its list through a chain of `if`s and a `switch`.

## Model

| member | source | states |
|---|---|---|
| Store.StatusName | src/lib/supabase.ts:61-75 | a status is stored under one of the three names "pending", "confirmed", "cancelled" |
| Store.StatusNameInjective | src/lib/supabase.ts:61-75 | distinct statuses have distinct stored names |
| Store.ConflictFilterIsOverlap | src/lib/supabase.ts:230 | for non-empty stored and candidate ranges the three-clause filter holds exactly when the half-open ranges overlap |
| Store.OverlapIsCaught | src/lib/supabase.ts:230 | every overlap, well-formed or not, is caught by the three-clause filter |
| Store.IsTimeSlotAvailable | src/lib/supabase.ts:224-237 | a range is unavailable exactly when some confirmed row on that date passes the filter; when available, no confirmed row on that date overlaps it |
| Store.AvailableIffNoOverlap | src/lib/supabase.ts:224-237 | with well-formed rows and a non-empty range, available exactly when no confirmed same-date row overlaps |
| Store.OnlyConfirmedSameDateBlocks | src/lib/supabase.ts:228-229 | adding a pending, cancelled or other-date row changes no availability answer |
| Store.AdjacentRangesDoNotConflict | src/lib/supabase.ts:230 | a confirmed 09:00-10:00 booking leaves 10:00-11:00 free and blocks 09:30-10:30 |
| Store.AreTimeSlotsAvailable | src/lib/supabase.ts:240-248 | true exactly when every range is available (so true for none); on false, the last range queried is the first taken one and the earlier ones were free |
| Store.GetBookedTimeSlots | src/lib/supabase.ts:209-221 | one entry per confirmed row on that date, in table order: entry k is the projected columns of the k-th such row, so two identical bookings give two entries; and a projection appears exactly when some confirmed row on that date has it |
| Store.GetBookings | src/lib/supabase.ts:112-123 | all rows, newest `created_at` first, as a permutation of the table |
| Store.BookingsByEmailSpec | src/lib/supabase.ts:126-147 | the rows for an e-mail are, with multiplicity, exactly the rows carrying it, each carries it, and they come newest first |
| Store.FilterKeepsNewestFirst | src/lib/supabase.ts:126-147 | filtering a newest-first list keeps it newest first |
| Store.StatusCountsSumToTotal | src/app/admin/dashboard/page.tsx:177-185 | the confirmed, pending and cancelled counts add up to the number of rows |
| Store.SetStatus | src/lib/supabase.ts:172-180 | same length; each row with the id gets the new status and update stamp, every other row is untouched |
| Store.BookingTable.constructor | src/lib/supabase.ts:61-75 | a table with unique ids holds the given rows |
| Store.BookingTable.UpdateStatus | src/lib/supabase.ts:163-206 | the rows become `SetStatus` of the old rows; failure exactly when no row has the id, and then nothing changes; success returns the updated row; ids stay unique |
| Store.BookingTable.Insert | src/lib/supabase.ts:77-110 | the draft is appended with the store's id and both stamps set to now; ids stay unique |
| TimeSlots.SlotIdInjective | src/components/time-slot-selector.tsx:29 | two "HH:MM-HH:MM" ids are equal only for equal ranges |
| TimeSlots.HourLabel | src/components/time-slot-selector.tsx:25-26 | the padded hour followed by ":00" is the formatted time of that hour |
| TimeSlots.HourSlotShape | src/components/time-slot-selector.tsx:28-33 | a grid slot lasts one hour and its id names its own range |
| TimeSlots.GridElements | src/components/time-slot-selector.tsx:24-34 | the first n grid slots are the hours from 09:00, each with its own draw |
| TimeSlots.GridShape | src/components/time-slot-selector.tsx:21-37 | 13 slots from 09:00 to 22:00, back to back, one hour each, ids naming their ranges, flags from the draws, ids pairwise distinct |
| TimeSlots.GenerateTimeSlots | src/components/time-slot-selector.tsx:21-37 | the loop builds exactly the grid |
| TimeSlots.GridIdsDistinct | src/components/time-slot-selector.tsx:29 | slots on the hourly grid have pairwise distinct ids |
| TimeSlots.ToggleSlot | src/components/time-slot-selector.tsx:47-62 | nothing is emitted exactly for an unavailable slot; a selected slot is removed (every entry with its id) keeping the others in order and with their multiplicities; an unselected one is appended |
| TimeSlots.ToggleTwiceRestores | src/components/time-slot-selector.tsx:47-62 | clicking an available unselected slot twice gives back the original selection |
| BookingWizard.Tax | src/components/booking-modal.tsx:71 | the tax is the tenth of the amount, rounded down |
| BookingWizard.FinalPricePerSlot | src/components/booking-modal.tsx:68-72 | the tax is 1000 per slot and the final price 11000 per slot |
| BookingWizard.FinalPriceExamples | src/components/booking-modal.tsx:68-72 | 0, 1 and 3 slots cost 0, 11000 and 33000 |
| BookingWizard.SortByStart | src/components/booking-modal.tsx:77 | the sorted copy is a permutation of the selection ordered by start time |
| BookingWizard.SortedBounds | src/components/booking-modal.tsx:77-79 | the first and last sorted slots come from the selection and bound every start |
| BookingWizard.TimeRangeSpan | src/components/booking-modal.tsx:74-82 | "" exactly for no slots; otherwise from the earliest start to the end of a slot starting last |
| BookingWizard.BookingModal.constructor | src/components/booking-modal.tsx:31-34 | the sheet opens on the date-time step with no date and no slots |
| BookingWizard.BookingModal.HandleDateSelect | src/components/booking-modal.tsx:36-39 | the date is set and the slots are cleared; the step is kept |
| BookingWizard.BookingModal.HandleTimeSlotSelect | src/components/booking-modal.tsx:41-43 | the slots become the emitted list; nothing else changes |
| BookingWizard.BookingModal.HandleNext | src/components/booking-modal.tsx:45-49 | moves to confirmation exactly when a date is set and a slot is picked, else keeps the step; the confirmation step always has a complete selection |
| BookingWizard.BookingModal.HandleBack | src/components/booking-modal.tsx:51-53 | back to the date-time step, selection kept |
| BookingWizard.BookingModal.HandleBooking | src/components/booking-modal.tsx:55-64 | closes the sheet and resets step, date and slots |
| AdminReservationsApi.ListReservations | src/app/api/admin/reservations/route.ts:4-60 | `total` is the table size and `filtered` the length of the returned list |
| AdminReservationsApi.DateFilteredSpec | src/app/api/admin/reservations/route.ts:22-29 | the date filter applies only with both bounds, keeps the inclusive range, and keeps order |
| AdminReservationsApi.StatusFilteredSpec | src/app/api/admin/reservations/route.ts:32-34 | the status filter applies unless the status is absent or "all", and keeps order |
| AdminReservationsApi.ListReservationsSpec | src/app/api/admin/reservations/route.ts:19-46 | the listing is an in-order sub-list of all bookings, newest first, holding exactly the stored bookings that pass both filters |
| AdminReservationsApi.ListAllIsEverything | src/app/api/admin/reservations/route.ts:22-34 | no bounds and status "all" list the whole table |
| AdminReservationsApi.RequiredPresent | src/app/api/admin/reservations/route.ts:70-78 | a request passing the required-field check has a name, phone, date, both times, non-zero hours and price |
| AdminReservationsApi.FirstFalsy | src/app/api/admin/reservations/route.ts:70-78 | none exactly when no field is falsy; otherwise the first falsy field in the fixed order |
| AdminReservationsApi.FindMissingField | src/app/api/admin/reservations/route.ts:70-78 | the loop with its early return finds the first falsy required field |
| AdminReservationsApi.BadRequestIffMissing | src/app/api/admin/reservations/route.ts:70-78 | 400 exactly when a required field is falsy, naming the first one |
| AdminReservationsApi.ZeroPriceIsMissing | src/app/api/admin/reservations/route.ts:70-78 | a zero total price is refused as missing |
| AdminReservationsApi.CreatedSpec | src/app/api/admin/reservations/route.ts:81-113 | 409 exactly when a confirmed same-date row matches the range; otherwise the row carries the request's fields, `confirmed` and `["start-end"]` as defaults, and the store's id and stamps |
| AdminReservationsApi.Post | src/app/api/admin/reservations/route.ts:63-127 | the answer is the modelled outcome; on 400 or 409 the table is unchanged, on success exactly the new row is appended |
| AdminReservationsApi.PostKeepsNoDoubleBooking | src/app/api/admin/reservations/route.ts:81-105 | a creation never puts two overlapping confirmed bookings on one date |
| AdminBookingForm.RoundHalfUp | src/components/admin/create-booking-modal.tsx:68 | the result is within one half of the argument, halves rounding up |
| AdminBookingForm.HandleInputChangeSpec | src/components/admin/create-booking-modal.tsx:53-77 | a change sets its own field; a time change over a non-empty range sets hours and price from it, an empty range keeps them; other changes keep hours and price |
| AdminBookingForm.HalfHourPrice | src/components/admin/create-booking-modal.tsx:66-68 | k half hours are k/2 hours and cost 5500·k |
| AdminBookingForm.OneHourExample | src/components/admin/create-booking-modal.tsx:48-49 | 09:00 to 10:00 is one hour and 11000 |
| AdminBookingForm.ValidateFormSpec | src/components/admin/create-booking-modal.tsx:79-106 | accepted exactly when name and phone are not blank, a date is set and the end is after the start; a rejection names the first failed check |
| AdminBookingForm.ClockIsFormatTime | src/components/admin/create-booking-modal.tsx:172 | the padded `hh:mm` label is the formatted time of that minute |
| AdminBookingForm.OptionsForElements | src/components/admin/create-booking-modal.tsx:168-177 | after n hours there are 2n options, option i being 09:00 + 30i |
| AdminBookingForm.GenerateTimeOptions | src/components/admin/create-booking-modal.tsx:168-177 | the nested loops build exactly the option list |
| AdminBookingForm.TimeOptionsElements | src/components/admin/create-booking-modal.tsx:168-177 | 28 options from 09:00 to 22:30, option i being 09:00 + 30i |
| AdminBookingForm.TimeOptionsOrdered | src/components/admin/create-booking-modal.tsx:168-177 | the options strictly increase as the strings the pickers compare |
| AdminBookingForm.DefaultFormConsistent | src/components/admin/create-booking-modal.tsx:41-51 | the default 09:00-10:00, 1 hour, 11000 agree with each other, and an empty default form is refused for its name |
| AdminBookingForm.ChangeKeepsConsistent | src/components/admin/create-booking-modal.tsx:53-77 | every edit keeps hours and price in step with a non-empty range |
| AdminBookingForm.ValidFormHasAllRequired | src/components/admin/create-booking-modal.tsx:108-120 | a form that passes validation with consistent hours and price is never refused by the server for a missing field |
| AdminBookingForm.CreateBookingForm.constructor | src/components/admin/create-booking-modal.tsx:41-51 | the form starts at the defaults on the given date or today |
| AdminBookingForm.CreateBookingForm.OnChange | src/components/admin/create-booking-modal.tsx:53-77 | the form becomes the change applied to it, keeping consistency |
| AdminBookingForm.CreateBookingForm.HandleCancel | src/components/admin/create-booking-modal.tsx:152-165 | the defaults are restored and the dialog closes |
| AdminBookingForm.CreateBookingForm.HandleSubmit | src/components/admin/create-booking-modal.tsx:108-150 | an invalid form sends nothing; otherwise the server's outcome decides: on creation the booking is handed back, the form reset and closed; on refusal form and table are unchanged |
| ConfirmApi.ConfirmRowsSpec | src/app/api/booking/confirm/route.ts:17-25 | the booking with the id becomes confirmed with a new stamp, whatever its status; no other field or row changes |
| ConfirmApi.ConfirmRevivesCancelled | src/app/api/booking/confirm/route.ts:17-25 | a cancelled booking is confirmed too |
| ConfirmApi.Confirm | src/app/api/booking/confirm/route.ts:4-48 | a falsy id gives 400 with nothing changed; otherwise the update runs, 500 exactly when no booking has the id, and success returns the updated row |
| ConfirmApi.ConfirmCanDoubleBook | src/app/api/booking/confirm/route.ts:17-25 | after a pending and a confirmed creation of the same hour, confirming the pending one double-books the room |
| ConfirmApi.OtherRows | src/app/api/booking/confirm/route.ts:17-25 | the other rows are exactly the rows with another id |
| ConfirmApi.CheckedConfirmKeepsNoDoubleBooking | src/app/api/booking/confirm/route.ts:17-25 | with the availability check added, a confirmation never double-books |
| ConfirmApi.ConfirmChecked | src/app/api/booking/confirm/route.ts:4-48 | the checked route answers the checked outcome and changes the table only on success |
| CalendarGrid.DaysInMonth | src/components/ui/calendar.tsx:19-20 | every month has 28 to 31 days |
| CalendarGrid.MonthsAreConsecutive | src/components/ui/calendar.tsx:19-20 | each month starts the day after the previous one ends |
| CalendarGrid.StartOfWeek | src/components/ui/calendar.tsx:21 | the Sunday on or before the day |
| CalendarGrid.EndOfWeek | src/components/ui/calendar.tsx:22 | the Saturday on or after the day |
| CalendarGrid.WeekCountExact | src/components/ui/calendar.tsx:19-30 | the grid from the first Sunday to the last Saturday is a whole number of weeks |
| CalendarGrid.WeekRowsElements | src/components/ui/calendar.tsx:30-68 | n rows of 7 cells, cell (r, c) being the day first + 7r + c with its flags |
| CalendarGrid.MonthGridShape | src/components/ui/calendar.tsx:19-68 | at least four rows of seven consecutive days from the Sunday on or before the first day to the Saturday on or after the last; disabled exactly before `minDate`, selected exactly on the selected day, current-month exactly inside the month |
| CalendarGrid.MonthDaysOnce | src/components/ui/calendar.tsx:30-60 | every day of the month has a current-month cell, and cells strictly increase row by row |
| CalendarGrid.Click | src/components/ui/calendar.tsx:51-55 | a click selects exactly a non-disabled day of the current month, and selects that day |
| CalendarGrid.ClickSelectsOnlyOpenDays | src/components/ui/calendar.tsx:34-55 | on the grid, a click selects a day exactly when it is in the month and not before `minDate` |
| CalendarGrid.Calendar.constructor | src/components/ui/calendar.tsx:16-17 | `minDate` defaults to the current instant |
| CalendarGrid.Calendar.BuildRows | src/components/ui/calendar.tsx:19-68 | the render loop builds exactly the month grid |
| CalendarGrid.Calendar.PrevMonth | src/components/ui/calendar.tsx:70-72 | one month back |
| CalendarGrid.Calendar.NextMonth | src/components/ui/calendar.tsx:74-76 | one month forward |
| CalendarGrid.NavigationIsAdjacent | src/components/ui/calendar.tsx:70-76 | the previous month ends the day before, the next starts the day after: no day skipped or repeated |
| AdminDashboard.StatusStep | src/app/admin/dashboard/page.tsx:82-84 | the status step keeps exactly what the status filter keeps |
| AdminDashboard.SearchStep | src/app/admin/dashboard/page.tsx:87-93 | the search step keeps exactly what status and search keep |
| AdminDashboard.RangeStep | src/app/admin/dashboard/page.tsx:95-125 | the date step keeps exactly what all three filters keep |
| AdminDashboard.ApplyFilters | src/app/admin/dashboard/page.tsx:78-128 | the step-by-step narrowing gives exactly the bookings every active filter keeps, in order |
| AdminDashboard.ShownSpec | src/app/admin/dashboard/page.tsx:78-128 | the shown list is an in-order sub-list holding exactly the bookings each active filter keeps; all/blank/all shows everything |
| AdminDashboard.SearchSpec | src/app/admin/dashboard/page.tsx:87-93 | a blank term filters nothing; otherwise a booking is kept exactly when its case-folded name or e-mail, or its verbatim phone, contains the term |
| AdminDashboard.LocalDayBounds | src/app/admin/dashboard/page.tsx:103-106 | an instant's local day is the day whose local midnights bracket it |
| AdminDashboard.ByDayRangesSelectCalendarDays | src/app/admin/dashboard/page.tsx:95-121 | the corrected "today" keeps the bookings whose date's local midnights bracket the current instant; "week" keeps the Sunday-to-Saturday week containing today; "month" keeps the days from the month's first day up to the next month's first day |
| AdminDashboard.ByDayIgnoresTimeOfDay | src/app/admin/dashboard/page.tsx:96-112 | the corrected tests give the same answer at any instant of the same local day |
| AdminDashboard.TodayAndMonthAgreeEastOfUtc | src/app/admin/dashboard/page.tsx:103-121 | east of UTC the page's "today" and "month" tests equal the calendar-day tests |
| AdminDashboard.WeekFilterDropsFirstDay | src/app/admin/dashboard/page.tsx:96-112 | a booking on today's Sunday is left out of "this week" at 10:00 in Seoul |
| AdminDashboard.TodayFilterMissesTodayWestOfUtc | src/app/admin/dashboard/page.tsx:103-106 | a booking for today is missed by "today" in New York |
| AdminDashboard.MonthFilterShiftedWestOfUtc | src/app/admin/dashboard/page.tsx:114-121 | in New York with January selected, "month" hides a booking dated 1 January and shows one dated 1 February; the day-based test does the reverse |
| AdminDashboard.ReplaceById | src/app/admin/dashboard/page.tsx:135-143 | same length and ids; entries with the updated id are replaced, all others kept |
| AdminDashboard.ReplaceMirrorsStatusUpdate | src/app/admin/dashboard/page.tsx:135-143 | replacing a status-updated booking gives the store's own `SetStatus` result |
| AdminDashboard.ReplaceKeepsUniqueIds | src/app/admin/dashboard/page.tsx:135-143 | replacing keeps ids unique |
| AdminDashboard.PrependKeepsNewestFirst | src/app/admin/dashboard/page.tsx:145-148 | the new booking goes first, the rest is the old list, and a newest-first list stays so |
| AdminDashboard.ComputeStats | src/app/admin/dashboard/page.tsx:177-185 | each status count is exact, they add up to the total, and today's count does not exceed it |
| Reservations.SearchBookingsSpec | src/app/reservations/page.tsx:23-33 | a blank term shows the whole list; otherwise exactly the bookings whose case-folded name or verbatim phone contains the term, in order |
| Reservations.SearchIgnoresEmail | src/app/reservations/page.tsx:27-30 | the e-mail address plays no part in the search |
| Reservations.PageSearchWithinDashboardSearch | src/app/reservations/page.tsx:27-30 | every booking this page finds, the dashboard's search finds too |
| Reservations.CountBookings | src/app/reservations/page.tsx:142-166 | total and exact per-status counts that add up to the total |
| Reservations.TruncateTime | src/app/reservations/page.tsx:71-73 | the first five characters, or the whole of a shorter string |
| Reservations.TruncateDbTime | src/app/reservations/page.tsx:71-73 | a stored "HH:MM:SS" time becomes its "HH:MM" form, and truncating is idempotent |
| Common.FormatTimeOrder | src/components/booking-modal.tsx:77 | zero-padded times compare as strings as their minutes compare |
| Common.FormatTimeInjective | src/components/time-slot-selector.tsx:29 | distinct times render differently |

## Left out

- Network and database I/O, JSON marshalling, `alert`, console logging, JSX rendering and locale formatting are not modelled. The store is an in-memory sequence of rows. Query errors and thrown exceptions, beyond the "no such row" case, are not modelled.
- The check-then-insert race between the availability check and the insert is not modelled. It is a concurrency concern.
- `Math.random()` availability draws are an input to `GenerateTimeSlots`.
- The model uses exact arithmetic instead of floating point. Prices and hours (`* 0.1`, `* 1.1`, `Math.round`) are computed on integers or reals. Binary rounding error is not modelled.
- Dates are integer day numbers, and instants are integer milliseconds with a fixed UTC offset. Daylight-saving changes are not modelled.
- Strings that are not valid dates, times or statuses are not modelled, and neither are extra JSON fields.
- The database's order among bookings with equal `created_at` is unspecified. The model picks a stable order.
- Store.GetBookingsByEmail: the contract says which rows come back and in what order. It does not fix the order among rows with the same `created_at`, because the database does not either.
- BookingWizard.TimeRangeSpan: when several selected slots share the latest start, the model does not say which one's end is shown. JavaScript's sort is stable, so the source shows the end of the last one selected. No selection built by clicking the grid has such a tie: the grid gives one slot per start (TimeSlots.GridShape), and TimeSlots.ToggleSlot appends only a slot whose id is not yet selected.
- Store.GetBookedTimeSlots: the result follows the table's row order. The query has no `order`, so the database may return the same entries in another order.
- Calendar month arithmetic (`subMonths`/`addMonths`) is modelled on month indexes. The day-of-month clamping of those functions does not affect the grid, which only uses the month.
- AdminDashboard.ComputeStats: `todayBookings` is stated only as a bound. It counts the bookings whose UTC-midnight date falls on today's local day, with the same time-zone caveat as the "today" filter.
- The optional `onSelect` and `onTimeSlotSelect` callbacks are modelled as always present. With a callback absent, a click simply does nothing.
- Loading flags, React effect scheduling and the booking detail dialog are not modelled. The dialog only copies four fields and sends a request.
- Authentication and the marketing pages are not modelled.
- The admin time pickers offer 22:30 although the room closes at 22:00. The model keeps the 28 options as written.
- The calendar disables today by default, because `minDate` defaults to the current instant, which is after today's midnight. The model keeps this.

## Findings

| source | as written | input that shows it | evidently intended | confidence | as-written member | corrected member |
|---|---|---|---|---|---|---|
| src/app/api/booking/confirm/route.ts:17-25 | confirms a booking without checking the room's other confirmed bookings, while creation lets a pending booking be overlapped by a confirmed one | create pending 09:00-10:00, create confirmed 09:00-10:00 (allowed, since pending does not block), confirm the first: two confirmed bookings on one hour | refuse the confirmation (409) when another confirmed booking overlaps | medium, not executed | ConfirmApi.ConfirmCanDoubleBook | ConfirmApi.CheckedConfirmKeepsNoDoubleBooking |
| src/app/admin/dashboard/page.tsx:96-112 | "this week" runs from now moved back to Sunday, keeping the time of day, and is compared with the booking date's UTC midnight | Seoul (+09:00), Sunday 10:00 local, booking dated that Sunday (09:00 local): before the week start, so hidden | the Sunday-to-Saturday week of calendar days containing today | high, not executed | AdminDashboard.WeekFilterDropsFirstDay | AdminDashboard.ByDayIgnoresTimeOfDay |
| src/app/admin/dashboard/page.tsx:103-106 | "today" compares the local day of the booking date's UTC midnight with today's local day | New York (-05:00), 07:00 local on the booking's date: its UTC midnight is the previous local day, so hidden | bookings dated today's local date | medium, not executed | AdminDashboard.TodayFilterMissesTodayWestOfUtc | AdminDashboard.ByDayRangesSelectCalendarDays |
| src/app/admin/dashboard/page.tsx:114-121 | "month" compares the booking date's UTC midnight with local midnight of the month's first day and the last local millisecond of its last day | New York (-05:00), January 1970 selected: a booking dated 1 January (UTC midnight is 31 December 19:00 local) is hidden, and one dated 1 February (31 January 19:00 local) is shown | bookings dated in the selected month | medium, not executed | AdminDashboard.MonthFilterShiftedWestOfUtc | AdminDashboard.ByDayRangesSelectCalendarDays |
