/**
 * The calendar (components/BookingCalendar.tsx) talking to the appointments
 * API (app/api/appointments/route.ts): the body `handleBooking` POSTs, and
 * the list `fetchAppointments` keeps from GET, from which the calendar
 * decides which slots are booked.
 *
 * JSON carries dates as ISO strings: `toIso` is how the server writes an
 * instant and `parseDate` is `new Date(date)` on the server; both are
 * parameters.
 */
module BookingFlow {
  import opened Wrappers
  import opened JsValues
  import opened SlotState
  import opened AppointmentsRoute

  /**
   * The POST body `handleBooking` sends: the slot's instant, the name and
   * the phone; it sends no `nailTechId` and no `nailTechName`.
   */
  function BookingBody(request: BookingRequest, parseDate: string -> Instant): (body: PostBody)
    ensures !CreatesTech(body) && body.nailTechId.None?
    ensures body.date == parseDate(request.date)
    ensures body.customerName == request.customerName && body.phoneNumber == request.phoneNumber
  {
    PostBody(parseDate(request.date), request.customerName, request.phoneNumber, None, None)
  }

  /**
   * `fetchAppointments`: on a 200 response the calendar keeps the listing
   * (id, ISO date, status of each appointment, in the listing's order);
   * on any other response it keeps what it had.
   */
  function FetchAppointments(previous: seq<CalendarAppointment>, response: GetResponse,
                             toIso: Instant -> string): (r: seq<CalendarAppointment>)
    ensures !response.Appointments? ==> r == previous
    ensures response.Appointments? ==> |r| == |response.appointments|
    ensures response.Appointments? ==>
      forall i :: 0 <= i < |r| ==>
        var a := response.appointments[i].appointment;
        r[i] == CalendarAppointment(a.id, toIso(a.date), a.status)
  {
    if response.Appointments? then
      var listed := response.appointments;
      seq(|listed|, i requires 0 <= i < |listed| =>
        CalendarAppointment(listed[i].appointment.id, toIso(listed[i].appointment.date), listed[i].appointment.status))
    else
      previous
  }

  /** A booking made from the calendar never creates a nail tech and stores no tech. */
  lemma CalendarBookingHasNoTech(db: Db, clerkUserId: Option<string>, request: BookingRequest,
                                 parseDate: string -> Instant)
    ensures var after := PostSpec(db, clerkUserId, BookingBody(request, parseDate));
      after.0.nailTechs == db.nailTechs &&
      (after.1.Created? ==> after.1.appointment.appointment.nailTechId == None && after.1.appointment.nailTech == None)
  {
  }

  /**
   * After a successful fetch, a slot shows as booked exactly when one of
   * the signed-in user's own appointments, of any status, falls in the
   * slot's minute. Other users' appointments never mark a slot booked.
   */
  lemma {:induction false} CalendarSeesOwnBookings<D>(db: Db, clerkUserId: Option<string>, user: User,
                                                      previous: seq<CalendarAppointment>, toIso: Instant -> string,
                                                      date: D, time: string,
                                                      localSlotToUtcISO: (D, string) -> string,
                                                      isSameUtcMinute: (string, string) -> bool)
    requires UniqueClerkIds(db.users)
    requires OptionalStringTruthy(clerkUserId) && user in db.users && user.clerkUserId == clerkUserId.value
    ensures var shown := FetchAppointments(previous, GetSpec(db, clerkUserId), toIso);
      IsSlotBooked(shown, date, time, localSlotToUtcISO, isSameUtcMinute) <==>
        exists a :: a in db.appointments && a.userId == user.id &&
          isSameUtcMinute(toIso(a.date), localSlotToUtcISO(date, time))
  {
    GetListsOwn(db, clerkUserId, user);
    var listed := GetSpec(db, clerkUserId).appointments;
    var shown := FetchAppointments(previous, GetSpec(db, clerkUserId), toIso);
    ShownAreOwn(db, user, listed, shown, toIso, localSlotToUtcISO(date, time), isSameUtcMinute);
  }

  /** The calendar entries made from a listing of exactly `user`'s appointments match a slot iff one of those appointments does. */
  lemma ShownAreOwn(db: Db, user: User, listed: seq<Listed>, shown: seq<CalendarAppointment>, toIso: Instant -> string,
                    slot: string, isSameUtcMinute: (string, string) -> bool)
    requires forall a :: a in AppointmentsOf(listed) <==> a in db.appointments && a.userId == user.id
    requires |shown| == |listed|
    requires forall i :: 0 <= i < |shown| ==> shown[i].date == toIso(listed[i].appointment.date)
    ensures (exists c :: c in shown && isSameUtcMinute(c.date, slot)) <==>
      exists a :: a in db.appointments && a.userId == user.id && isSameUtcMinute(toIso(a.date), slot)
  {
    var own := AppointmentsOf(listed);
    if exists c :: c in shown && isSameUtcMinute(c.date, slot) {
      var c :| c in shown && isSameUtcMinute(c.date, slot);
      var i :| 0 <= i < |shown| && shown[i] == c;
      assert own[i] in own;
    }
    if exists a :: a in db.appointments && a.userId == user.id && isSameUtcMinute(toIso(a.date), slot) {
      var a :| a in db.appointments && a.userId == user.id && isSameUtcMinute(toIso(a.date), slot);
      assert a in own;
      var i :| 0 <= i < |own| && own[i] == a;
      assert shown[i] in shown;
    }
  }
}
