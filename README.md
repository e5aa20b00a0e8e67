# Salon booking: time slots, slot states, colours and the appointments API

A Dafny model of the logic at the heart of a small nail-salon booking
application (Next.js, TypeScript):

- **Time slots** (`generateTimeSlots` in components/BookingCalendar.tsx):
  the quarter-hour labels "h:mm AM/PM" the calendar offers for a day. The
  nested loop is a method proved equal to a specification function. About
  that function the model proves the count, the position of every label,
  the clock hour, the suffix and the minute digits, and that the labels
  read back (through a label parser) as strictly increasing times of day.
- **Slot and day states** (same file): `isSlotBooked` as an existential
  over the fetched appointments, the `tileDisabled` predicate on calendar
  days, the `handleBooking` guard, and slot clicks, with the proof that a
  booked slot can never become the selected one.
- **Colours** (utils/getColorForId.ts): the palette index
  `colors[id % colors.length]` with JavaScript's truncating remainder,
  including what negative ids do.
- **The appointments API** (app/api/appointments/route.ts): the database
  is a `Store` class holding users, nail techs and appointments, with
  auto-increment keys. `Post` and `Get` are methods proved against the
  specification functions `PostSpec` and `GetSpec`. Lemmas about those
  functions cover the 401 and 404 paths, when a nail tech is created,
  that no conflict check exists, that the keys stay unique, and that GET
  lists exactly the caller's appointments, newest first.
- **The flow between the two** (module `BookingFlow`): the body the
  calendar POSTs never creates a nail tech. GET returns only the signed-in
  user's appointments, so the calendar marks a slot booked exactly when
  one of that user's own appointments, of any status, falls in the slot's
  minute. Other users' bookings never grey a slot out.

JavaScript semantics the code relies on are written out in `JsValues`:

- `%` truncates toward zero, so `-7 % 6` is `-1`. `-0` is falsy and
  indexes like `0`.
- The empty string, `undefined`, `null` and `0` are falsy.
- `Number.prototype.toString` and `padStart` are modelled on safe integers
  (`|n| <= 2^53 - 1`), where `toString` prints the exact decimal digits.

The time-zone helpers `localSlotToUtcISO` and `isSameUtcMinute` come from
utils/datetime, which is not part of this model. They are function
parameters, so every property holds whatever those helpers compute.

Calendar days are local day numbers counted from 1 January 1970, a
Thursday. A weekday is `(day + 4) % 7`, numbered as `getDay()` numbers it.

A reader might expect a booking system to refuse a second booking of the
same tech at the same minute, to reuse an existing tech found by name, and
to reject an empty name or phone number. The POST handler does none of
these. This model follows the code, and proves the absences:

- `DoubleBookingAccepted`: the same booking succeeds twice.
- `SameTechNameTwice`: the same name creates two techs.
- `PostSucceedsIff`: success depends only on the caller.

## Model

| member | source | states |
|---|---|---|
| `TimeSlots.Hour12` | components/BookingCalendar.tsx:30 | the clock hour: `h % 12` with JavaScript's truncating remainder, or 12 when that is `0` or `-0` (falsy); its range and period are proved in `ClockHour` |
| `TimeSlots.Meridiem` | components/BookingCalendar.tsx:31 | "AM" for hours before 12 and "PM" from 12 on |
| `TimeSlots.MinuteText` | components/BookingCalendar.tsx:32 | the minute's decimal digits padded on the left with `0` to two characters; the four quarter values are given in `MinuteTexts` |
| `TimeSlots.FormatLabel` | components/BookingCalendar.tsx:32 | the template: clock hour, a colon, the minute text, a space and the suffix; the positions are proved in `FormatLabelParts` |
| `TimeSlots.SlotLabel` | components/BookingCalendar.tsx:29-32 | the label pushed for hour `h` and minute `m`: the template applied to `Hour12(h)`, `MinuteText(m)` and `Meridiem(h)` |
| `TimeSlots.SlotLabels` | components/BookingCalendar.tsx:26-36 | the specification of the loop: the labels of the hours `start` up to `end - 1`, four quarter hours each, in order; `GenerateTimeSlots` is proved equal to it |
| `TimeSlots.GenerateTimeSlots` | components/BookingCalendar.tsx:26-36 | the nested loop pushes exactly the labels of `SlotLabels(start, end)`, hour by hour and quarter by quarter (loop invariants tie the partial result to the specification) |
| `TimeSlots.SlotCount` | components/BookingCalendar.tsx:26-36 | `4 * (end - start)` labels when `start < end`, none otherwise |
| `TimeSlots.SlotAt` | components/BookingCalendar.tsx:28-32 | the label at index `4 * (h - start) + k` is the one built from hour `h` and minute `15 * k` |
| `TimeSlots.SlotIndex` | components/BookingCalendar.tsx:28-32 | every index `i` holds the label of hour `start + i / 4` and minute `15 * (i % 4)`, that is `15 * i` minutes after `start` o'clock |
| `TimeSlots.ClockHour` | components/BookingCalendar.tsx:30 | the clock hour (`h % 12`, or 12 when that is falsy) is 12 exactly at multiples of 12 (midnight and noon both show 12); for `h >= 0` it lies in 1..12 and agrees with `h` modulo 12 |
| `TimeSlots.MinuteTexts` | components/BookingCalendar.tsx:29-32 | the padded minute of quarter `k` is "00", "15", "30", "45" in turn |
| `TimeSlots.SlotLabelShape` | components/BookingCalendar.tsx:30-32 | a label is the clock hour's digits, a colon, two minute digits, a space and a suffix that is "AM" iff `h < 12` and "PM" iff `h >= 12` |
| `TimeSlots.FormatLabelParts` | components/BookingCalendar.tsx:32 | the template puts the hour before the colon, the two minute characters between the colon and the space, and the suffix last |
| `TimeSlots.ParseFormatted` | components/BookingCalendar.tsx:32 | a label the template builds from a valid clock hour, minute digits and suffix reads back as the time of day it names |
| `TimeSlots.ClockHourOfDay` | components/BookingCalendar.tsx:30-31 | within a day, the clock hour and the suffix together give back the 24-hour hour |
| `TimeSlots.SlotLabelDenotes` | components/BookingCalendar.tsx:28-32 | within a day, the label for hour `h` and minute `15 * k` reads back as `60 * h + 15 * k` minutes after midnight |
| `TimeSlots.SlotTime` | components/BookingCalendar.tsx:28-32 | within a day, label `i` reads back as `start` o'clock plus `15 * i` minutes |
| `TimeSlots.SlotsChronological` | components/BookingCalendar.tsx:28-32 | within a day, a later index always denotes a strictly later time: the labels are in chronological order |
| `TimeSlots.SlotsDistinct` | components/BookingCalendar.tsx:26-36 | within a day, no two slots share a label, so a label identifies its slot |
| `TimeSlots.DefaultSlots` | components/BookingCalendar.tsx:26-35 | with the defaults 11 and 20 there are 36 labels, from "11:00 AM" to "7:45 PM" |
| `JsValues.Rem` | utils/getColorForId.ts:10 | JavaScript's `%` on integers: the quotient truncates toward zero, so the remainder takes the dividend's sign (also used for `h % 12` at components/BookingCalendar.tsx:30) |
| `JsValues.StringTruthy` | components/BookingCalendar.tsx:68 | a string is truthy exactly when it is not empty |
| `JsValues.OptionalStringTruthy` | app/api/appointments/route.ts:8 | an absent, `null` or empty string is falsy; any other string is truthy (also the `nailTechName` test at line 23) |
| `JsValues.OptionalNumberTruthy` | app/api/appointments/route.ts:23 | an absent, `null` or zero number is falsy; any other number is truthy |
| `JsValues.IntToString` | components/BookingCalendar.tsx:32 | `n.toString()` for a safe integer: a minus sign for negative numbers, then the decimal digits without leading zeros |
| `JsValues.PadStart` | components/BookingCalendar.tsx:32 | `padStart(width, fill)`: the string preceded by enough fill characters to reach `width` |
| `JsValues.IntToStringSign` | components/BookingCalendar.tsx:32 | for a safe integer, `n.toString()` is plain digits exactly for `n >= 0` and starts with "-" exactly for `n < 0` |
| `JsValues.PadStartShape` | components/BookingCalendar.tsx:32 | `padStart` yields `width` characters (or the string itself when already that long), ending with the string and starting with fill characters |
| `JsValues.ParseNatToString` | components/BookingCalendar.tsx:32 | for a safe integer, reading back the decimal digits `toString` writes gives the number again |
| `SlotState.AnySameMinute` | components/BookingCalendar.tsx:64 | `some(...)` is true iff some appointment is in the same UTC minute as the slot |
| `SlotState.IsSlotBooked` | components/BookingCalendar.tsx:60-65 | a slot is booked iff some fetched appointment is in the same UTC minute as `localSlotToUtcISO(date, time)` |
| `SlotState.BookedIgnoresStatus` | components/BookingCalendar.tsx:60-65 | two lists with the same dates mark the same slots booked, whatever the statuses |
| `SlotState.CancelledStillBooks` | components/BookingCalendar.tsx:64 | a cancelled appointment in the slot's minute still marks the slot booked |
| `SlotState.BookedMonotone` | components/BookingCalendar.tsx:64 | more appointments never free a booked slot, whichever side they are added on |
| `SlotState.WeekDay` | components/BookingCalendar.tsx:113 | `getDay()` of a day number lies in 0..6 |
| `SlotState.WeekDayCycle` | components/BookingCalendar.tsx:113 | the weekday repeats every seven days and advances by one each day |
| `SlotState.TileDisabled` | components/BookingCalendar.tsx:109-115 | a day is disabled when it lies before today's local midnight or its weekday is 2 (Tuesday) |
| `SlotState.PastAndTuesdaysClosed` | components/BookingCalendar.tsx:109-115 | every day before today is disabled; from today on, a day is disabled iff it is a Tuesday |
| `SlotState.TilesWeekly` | components/BookingCalendar.tsx:109-115 | from today on, a day and the same weekday a week later are disabled alike |
| `SlotState.OneClosedDayPerWeek` | components/BookingCalendar.tsx:109-115 | from today on, every seven consecutive days contain exactly one disabled day |
| `SlotState.HandleBooking` | components/BookingCalendar.tsx:67-78 | a request is sent iff a date is selected and time, name and phone are non-empty; it carries the name, the phone and `localSlotToUtcISO(date, time)` |
| `SlotState.ClickSlot` | components/BookingCalendar.tsx:151-157 | clicking a booked slot changes nothing; clicking a free one selects it and opens the dialog |
| `SlotState.ClickSlots` | components/BookingCalendar.tsx:145-157 | the selection after clicking the given slots in turn on one date, each click judged booked or free against the same fetched list |
| `SlotState.SelectedSlotIsFree` | components/BookingCalendar.tsx:145-157 | after any sequence of clicks, while the fetched list and the date stay fixed, the selected time is empty or a slot that is not booked |
| `Colors.GetColorForId` | utils/getColorForId.ts:1-11 | a defined colour is always one of the six palette entries |
| `Colors.PaletteDistinct` | utils/getColorForId.ts:2-9 | no colour appears twice in the palette |
| `Colors.ColorInPalette` | utils/getColorForId.ts:10 | the colour is defined exactly for ids `>= 0` and for negative multiples of 6, and for `id >= 0` it is `Palette[id % 6]` |
| `Colors.ColorPeriodic` | utils/getColorForId.ts:10 | for `id >= 0`, ids six apart get the same colour |
| `Colors.ColorsInOrder` | utils/getColorForId.ts:2-10 | ids 0..5 take the palette in listed order, 0 giving "bg-amber-400" and 5 "bg-teal-400" |
| `Colors.SameColorIff` | utils/getColorForId.ts:2-10 | two non-negative ids share a colour iff they are congruent modulo 6 |
| `Colors.NegativeIds` | utils/getColorForId.ts:10 | a negative id gives `undefined` unless it is a multiple of 6, which gives `-0` and so "bg-amber-400" |
| `AppointmentsRoute.CreatesTech` | app/api/appointments/route.ts:23 | the guard `!nailTechId && nailTechName`: no non-zero id was sent and a non-empty name was |
| `AppointmentsRoute.PostSpec` | app/api/appointments/route.ts:6-52 | the store and the response after one POST, step by step: 401 without a caller, 404 without a user, else an optional new tech and one confirmed appointment; its properties are the lemmas below |
| `AppointmentsRoute.GetSpec` | app/api/appointments/route.ts:54-76 | the response to GET: 401 without a caller, 404 without a user, else the user's appointments newest first with their techs; its properties are in `FindManyOwned` and `GetListsOwn` |
| `AppointmentsRoute.FindUser` | app/api/appointments/route.ts:16 | a user found has the caller's clerk id; none found means no user has it |
| `AppointmentsRoute.FindUserUnique` | app/api/appointments/route.ts:16 | with unique clerk ids, the lookup finds exactly the user holding that clerk id |
| `AppointmentsRoute.TechById` | app/api/appointments/route.ts:39-41 | the included tech is a stored tech with the appointment's `nailTechId`, or none when the id is absent or names no tech |
| `AppointmentsRoute.OwnedBy` | app/api/appointments/route.ts:70 | the filter keeps every copy of each appointment of `userId` and nothing else |
| `AppointmentsRoute.InsertByDate` | app/api/appointments/route.ts:72 | inserting into a newest-first list keeps it newest first and adds exactly that appointment |
| `AppointmentsRoute.SortByDateDesc` | app/api/appointments/route.ts:72 | the result is ordered by date descending and is a permutation of the input |
| `AppointmentsRoute.WithTechs` | app/api/appointments/route.ts:71 | each appointment comes back in place with the tech its `nailTechId` refers to |
| `AppointmentsRoute.FindManyOwned` | app/api/appointments/route.ts:69-73 | the listing is a permutation of the user's appointments, newest first, each with its tech |
| `AppointmentsRoute.Store.CreateNailTech` | app/api/appointments/route.ts:24-26 | appends one tech with the given name under the next key and changes nothing else; the keys stay unique |
| `AppointmentsRoute.Store.CreateAppointment` | app/api/appointments/route.ts:30-42 | appends one appointment with the given fields under the next key, returns it with its tech, and changes nothing else |
| `AppointmentsRoute.Store.Post` | app/api/appointments/route.ts:6-52 | the store afterwards and the response are those of `PostSpec` on the store before; the store's invariant is kept |
| `AppointmentsRoute.Store.Get` | app/api/appointments/route.ts:54-76 | the response is `GetSpec` of the current store, which is left unchanged |
| `AppointmentsRoute.NotSignedIn` | app/api/appointments/route.ts:7-10 | with no caller id, POST answers 401 without writing, and GET answers 401 too |
| `AppointmentsRoute.UnknownUser` | app/api/appointments/route.ts:16-19 | a caller with no user record gets 404 from POST without a write, and 404 from GET |
| `AppointmentsRoute.PostSucceedsIff` | app/api/appointments/route.ts:6-44 | POST succeeds iff the caller is signed in and has a user record; nothing else is checked |
| `AppointmentsRoute.PostAppends` | app/api/appointments/route.ts:30-42 | a successful POST appends exactly one appointment: confirmed, owned by the caller's user, with the body's date, name and phone, under a fresh id; the users are unchanged |
| `AppointmentsRoute.PostPreservesValid` | app/api/appointments/route.ts:24-42 | after POST, clerk ids are still unique and every tech and appointment key is still unique and below the next key |
| `AppointmentsRoute.PostResolvesTech` | app/api/appointments/route.ts:21-28 | a tech is created iff `nailTechId` is falsy and `nailTechName` truthy; it has that name and a fresh non-zero id, and the appointment refers to it and returns it; otherwise the techs are unchanged and `nailTechId` is stored as sent |
| `AppointmentsRoute.SuppliedTechIdKept` | app/api/appointments/route.ts:21-23 | a non-zero `nailTechId` is stored unchanged and no tech is created, even when a name is sent too |
| `AppointmentsRoute.DoubleBookingAccepted` | app/api/appointments/route.ts:30-44 | repeating a successful booking with the same date and tech succeeds, and leaves two distinct appointments at the same instant with the same tech; when that id names a stored tech, both responses include that same tech |
| `AppointmentsRoute.SameTechNameTwice` | app/api/appointments/route.ts:23-27 | sending the same new tech name twice creates two techs of that name with different ids |
| `AppointmentsRoute.GetListsOwn` | app/api/appointments/route.ts:69-73 | GET lists exactly the appointments whose `userId` is the caller's user id (each stored copy once), ordered by date descending, each with its tech |
| `AppointmentsRoute.PostThenGet` | app/api/appointments/route.ts:30-73 | after a successful POST, the caller's GET lists what it listed before plus the new appointment |
| `BookingFlow.BookingBody` | components/BookingCalendar.tsx:73-78 | the calendar's POST body carries the slot's instant, the name and the phone, and no tech id or name |
| `BookingFlow.FetchAppointments` | components/BookingCalendar.tsx:52-58 | on a 200 response the calendar keeps the listing's ids, ISO dates and statuses in order; on any other response it keeps its previous list |
| `BookingFlow.CalendarBookingHasNoTech` | components/BookingCalendar.tsx:75-78 | a booking sent by the calendar never creates a tech and stores no tech id |
| `BookingFlow.CalendarSeesOwnBookings` | components/BookingCalendar.tsx:52-65 | after a successful fetch, a slot shows as booked iff one of the signed-in user's own appointments falls in its minute |

## Left out

- The time-zone module utils/datetime is not part of this model. `localSlotToUtcISO` and `isSameUtcMinute` are function parameters. No offset or daylight-saving arithmetic is modelled.
- `new Date()` and `react-calendar` are not modelled. Today's local midnight and the tile's day are day numbers passed in.
- Rendering is left out: JSX, the modal, toasts, the `isBooking` spinner, the `status` banner, `formatInTimeZone`, the link built with `laDateParam` and the form reset after a successful booking. `ClickSlot` keeps only the selected time and whether the dialog is open.
- The authentication service is a parameter: the caller's clerk id is an optional string.
- The database is an in-memory store of sequences. Foreign-key failures are not modelled: a `nailTechId` that names no tech, or `0` sent without a name, would make the real database reject the write. Neither is the 500 path with its logging. POST runs no transaction, so when the tech is created and the appointment write then fails, the real handler answers 500 and keeps the new tech; the model has no such partial write.
- `fetch`, `async`/`await`, JSON parsing and response construction are left out. Responses are datatypes with their HTTP status codes.
- Body fields are taken to have their intended types: ids are integers, names are strings. A body whose fields are other JSON types is not modelled.
- The date in a POST body is an instant given by a `parseDate` parameter. `new Date(date)` on a malformed string, which gives an invalid date, is not modelled.
- AppointmentsRoute.SortByDateDesc: the database leaves the order of equal dates unspecified. The model fixes one order, and its contract states only the date order and the permutation.
- SlotState.SelectedSlotIsFree: the slots are shown as soon as a date is picked, while `fetchAppointments` may still be pending. A slot clicked before the list arrives can turn out to be booked once it does. The lemma holds the fetched list and the date fixed, so it does not cover a list that changes between clicks.
- Concurrent requests are not modelled: there is no locking in the code to model.
- The status update route (app/api/appointments/[id]/route.ts) and the nail-tech list route (app/api/nail-tech/route.ts) are not part of this model.
- The pages and the header (app/page.tsx, the dashboard pages, components/Header.tsx) are routing and rendering only.
- Only integers are modelled. Fractional numbers passed to `getColorForId` or used as hours are not.
- Numbers are taken to be safe integers (`|n| <= 2^53 - 1`); the model's integers are unbounded. Beyond that range JavaScript's doubles differ: `toString` rounds above 2^53 (`(2**60).toString()` is "1152921504606847000") and switches to exponent form from 10^21 ("1e+21"), and `h++` in `generateTimeSlots` stops changing `h` at 2^53, so the loop would not end. The calendar passes 11 and 20, and `toString` only sees minutes 0..45 and clock hours 1..12.
