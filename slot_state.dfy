/**
 * Slot and date states of the booking calendar
 * (components/BookingCalendar.tsx): whether a slot is already booked,
 * which calendar days are closed, when a booking request is sent, and
 * which slots can be selected.
 *
 * The calendar's time-zone helpers (`localSlotToUtcISO`, which turns a
 * local date and a slot label into a UTC ISO instant, and
 * `isSameUtcMinute`, which compares two ISO instants to the minute) live in
 * a module that is not part of this model; they are parameters here, so
 * every property below holds whatever those helpers compute.
 */
module SlotState {
  import opened Wrappers
  import opened JsValues

  /** An appointment as the calendar fetches it: its id, its ISO date and its status. */
  datatype CalendarAppointment = CalendarAppointment(id: int, date: string, status: string)

  /** `appointments.some(appt => isSameUtcMinute(appt.date, slot))`, scanning from the front. */
  function AnySameMinute(appointments: seq<CalendarAppointment>, slot: string,
                         isSameUtcMinute: (string, string) -> bool): (b: bool)
    ensures b <==> exists i :: 0 <= i < |appointments| && isSameUtcMinute(appointments[i].date, slot)
  {
    if appointments == [] then false
    else if isSameUtcMinute(appointments[0].date, slot) then
      true
    else
      var b := AnySameMinute(appointments[1..], slot, isSameUtcMinute);
      assert forall i :: 1 <= i < |appointments| ==> appointments[i] == appointments[1..][i - 1];
      b
  }

  /**
   * `isSlotBooked(date, time)`: true iff some fetched appointment falls in
   * the same UTC minute as the slot's instant. Statuses are not looked at.
   */
  function IsSlotBooked<D>(appointments: seq<CalendarAppointment>, date: D, time: string,
                           localSlotToUtcISO: (D, string) -> string,
                           isSameUtcMinute: (string, string) -> bool): (booked: bool)
    ensures booked <==> exists a :: a in appointments && isSameUtcMinute(a.date, localSlotToUtcISO(date, time))
  {
    AnySameMinute(appointments, localSlotToUtcISO(date, time), isSameUtcMinute)
  }

  /**
   * Bookedness ignores the status: two lists whose appointments have the
   * same dates, one by one, mark the same slots as booked, so a cancelled
   * appointment still blocks its slot.
   */
  lemma BookedIgnoresStatus<D>(xs: seq<CalendarAppointment>, ys: seq<CalendarAppointment>, date: D, time: string,
                               localSlotToUtcISO: (D, string) -> string,
                               isSameUtcMinute: (string, string) -> bool)
    requires |xs| == |ys| && forall i :: 0 <= i < |xs| ==> xs[i].date == ys[i].date
    ensures IsSlotBooked(xs, date, time, localSlotToUtcISO, isSameUtcMinute)
        == IsSlotBooked(ys, date, time, localSlotToUtcISO, isSameUtcMinute)
  {
    var slot := localSlotToUtcISO(date, time);
    if IsSlotBooked(xs, date, time, localSlotToUtcISO, isSameUtcMinute) {
      var i :| 0 <= i < |xs| && isSameUtcMinute(xs[i].date, slot);
      assert ys[i] in ys;
    }
    if IsSlotBooked(ys, date, time, localSlotToUtcISO, isSameUtcMinute) {
      var i :| 0 <= i < |ys| && isSameUtcMinute(ys[i].date, slot);
      assert xs[i] in xs;
    }
  }

  /** A cancelled appointment in the slot's minute marks the slot booked. */
  lemma CancelledStillBooks<D>(appointments: seq<CalendarAppointment>, i: int, date: D, time: string,
                               localSlotToUtcISO: (D, string) -> string,
                               isSameUtcMinute: (string, string) -> bool)
    requires 0 <= i < |appointments| && appointments[i].status == "cancelled"
    requires isSameUtcMinute(appointments[i].date, localSlotToUtcISO(date, time))
    ensures IsSlotBooked(appointments, date, time, localSlotToUtcISO, isSameUtcMinute)
  {
    assert appointments[i] in appointments;
  }

  /** Fetching more appointments never frees a booked slot. */
  lemma BookedMonotone<D>(xs: seq<CalendarAppointment>, ys: seq<CalendarAppointment>, date: D, time: string,
                          localSlotToUtcISO: (D, string) -> string,
                          isSameUtcMinute: (string, string) -> bool)
    requires IsSlotBooked(xs, date, time, localSlotToUtcISO, isSameUtcMinute)
    ensures IsSlotBooked(xs + ys, date, time, localSlotToUtcISO, isSameUtcMinute)
    ensures IsSlotBooked(ys + xs, date, time, localSlotToUtcISO, isSameUtcMinute)
  {
    var a :| a in xs && isSameUtcMinute(a.date, localSlotToUtcISO(date, time));
    assert a in xs + ys && a in ys + xs;
  }

  // ---------------------------------------------------------------------
  // Calendar tiles

  /** `Date.prototype.getDay()` of Tuesday. */
  const Tuesday := 2

  /**
   * The weekday (0 = Sunday … 6 = Saturday) of a local calendar day,
   * counted in days from 1 January 1970, which was a Thursday.
   */
  function WeekDay(day: int): (w: int)
    ensures 0 <= w < 7
  {
    (day + 4) % 7
  }

  /** The weekday repeats every seven days and advances by one each day. */
  lemma WeekDayCycle(day: int, j: int)
    requires 0 <= j
    ensures WeekDay(day + 7) == WeekDay(day)
    ensures WeekDay(day + j) == (WeekDay(day) + j) % 7
  {
  }

  /** Two days less than a week apart fall on the same weekday only if they are the same day. */
  lemma SameWeekDayNear(u: int, v: int)
    requires -7 < u - v < 7 && WeekDay(u) == WeekDay(v)
    ensures u == v
  {
    var qu, qv := (u + 4) / 7, (v + 4) / 7;
    assert u + 4 == 7 * qu + WeekDay(u);
    assert v + 4 == 7 * qv + WeekDay(v);
    assert u - v == 7 * (qu - qv);
  }

  /**
   * `tileDisabled`: a calendar day is closed when it lies before today's
   * local midnight or falls on a Tuesday. Tiles and today's midnight are
   * both local midnights, so comparing the instants is comparing the days.
   */
  predicate TileDisabled(day: int, today: int)
  {
    day < today || WeekDay(day) == Tuesday
  }

  /** From today on, the closed days repeat every week. */
  lemma TilesWeekly(day: int, today: int)
    requires day >= today
    ensures TileDisabled(day + 7, today) == TileDisabled(day, today)
  {
    WeekDayCycle(day, 0);
  }

  /**
   * From today on, every seven consecutive days hold exactly one closed
   * day: the Tuesday.
   */
  lemma {:induction false} OneClosedDayPerWeek(first: int, today: int)
    requires first >= today
    ensures exists t :: first <= t < first + 7 && TileDisabled(t, today)
    ensures forall t, u ::
      (first <= t < first + 7 && first <= u < first + 7 && TileDisabled(t, today) && TileDisabled(u, today)) ==> t == u
  {
    var j := (Tuesday - WeekDay(first) + 7) % 7;
    WeekDayCycle(first, j);
    assert first <= first + j < first + 7 && TileDisabled(first + j, today);
    forall u, v | first <= u < first + 7 && first <= v < first + 7 &&
                  TileDisabled(u, today) && TileDisabled(v, today)
      ensures u == v
    {
      SameWeekDayNear(u, v);
    }
  }

  /** Every day before today is closed, and a future day is open iff it is not a Tuesday. */
  lemma PastAndTuesdaysClosed(day: int, today: int)
    ensures day < today ==> TileDisabled(day, today)
    ensures day >= today ==> (TileDisabled(day, today) <==> WeekDay(day) == Tuesday)
  {
  }

  // ---------------------------------------------------------------------
  // Booking

  /** The JSON body the calendar POSTs: the slot's UTC ISO instant, the customer's name and phone. */
  datatype BookingRequest = BookingRequest(date: string, customerName: string, phoneNumber: string)

  /**
   * `handleBooking`: no request unless a date is selected and the time,
   * the customer name and the phone number are all non-empty; otherwise
   * the request for the slot's UTC instant.
   */
  function HandleBooking<D>(selectedDate: Option<D>, selectedTime: string, customerName: string,
                            phoneNumber: string, localSlotToUtcISO: (D, string) -> string): (r: Option<BookingRequest>)
    ensures r.Some? <==> selectedDate.Some? && selectedTime != "" && customerName != "" && phoneNumber != ""
    ensures r.Some? ==> r.value.customerName == customerName && r.value.phoneNumber == phoneNumber
    ensures r.Some? ==> r.value.date == localSlotToUtcISO(selectedDate.value, selectedTime)
  {
    if selectedDate.None? || !StringTruthy(selectedTime) || !StringTruthy(customerName) || !StringTruthy(phoneNumber) then
      None
    else
      Some(BookingRequest(localSlotToUtcISO(selectedDate.value, selectedTime), customerName, phoneNumber))
  }

  /** The calendar's selection: the chosen slot label ("" for none) and whether the booking dialog is open. */
  datatype Selection = Selection(selectedTime: string, modalOpen: bool)

  /** Clicking a slot button: a booked slot does nothing, a free one is selected and opens the dialog. */
  function ClickSlot(s: Selection, time: string, booked: bool): (r: Selection)
    ensures booked ==> r == s
    ensures !booked ==> r.selectedTime == time && r.modalOpen
  {
    if !booked then Selection(time, true) else s
  }

  /** The selection after clicking the slots `times` in turn on one date, bookedness from `appointments`. */
  function ClickSlots<D>(s: Selection, times: seq<string>, appointments: seq<CalendarAppointment>, date: D,
                         localSlotToUtcISO: (D, string) -> string,
                         isSameUtcMinute: (string, string) -> bool): Selection
    decreases |times|
  {
    if times == [] then s
    else
      var booked := IsSlotBooked(appointments, date, times[0], localSlotToUtcISO, isSameUtcMinute);
      ClickSlots(ClickSlot(s, times[0], booked), times[1..], appointments, date, localSlotToUtcISO, isSameUtcMinute)
  }

  /**
   * A booked slot can never be selected: starting with nothing selected
   * (or a free slot), whatever slots are clicked, the selected time is
   * either empty or a slot that is not booked.
   */
  lemma {:induction false} SelectedSlotIsFree<D>(s: Selection, times: seq<string>,
                                                appointments: seq<CalendarAppointment>, date: D,
                                                localSlotToUtcISO: (D, string) -> string,
                                                isSameUtcMinute: (string, string) -> bool)
    requires s.selectedTime == "" || !IsSlotBooked(appointments, date, s.selectedTime, localSlotToUtcISO, isSameUtcMinute)
    ensures var r := ClickSlots(s, times, appointments, date, localSlotToUtcISO, isSameUtcMinute);
      r.selectedTime == "" || !IsSlotBooked(appointments, date, r.selectedTime, localSlotToUtcISO, isSameUtcMinute)
    decreases |times|
  {
    if times != [] {
      var booked := IsSlotBooked(appointments, date, times[0], localSlotToUtcISO, isSameUtcMinute);
      SelectedSlotIsFree(ClickSlot(s, times[0], booked), times[1..], appointments, date,
                         localSlotToUtcISO, isSameUtcMinute);
    }
  }
}
