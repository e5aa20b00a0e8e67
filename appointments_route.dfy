/**
 * The appointments API (app/api/appointments/route.ts) over an in-memory
 * store standing in for the database: users, nail techs and appointments,
 * with ids handed out by increasing counters as an auto-increment key would.
 *
 * POST resolves the caller to a user, creates a nail tech when the body
 * names one without giving an id, and appends one confirmed appointment.
 * GET lists the caller's appointments, newest first. The caller's identity
 * comes from the authentication service, which is a parameter here.
 */
module AppointmentsRoute {
  import opened Wrappers
  import opened JsValues

  /** A UTC instant in milliseconds since the epoch: what `new Date(date)` makes of the body's ISO string. */
  type Instant = int

  datatype User = User(id: int, clerkUserId: string)

  datatype NailTech = NailTech(id: int, name: string)

  datatype Appointment = Appointment(
    id: int,
    date: Instant,
    userId: int,
    status: string,
    customerName: string,
    phoneNumber: string,
    nailTechId: Option<int>)

  /** The fields POST reads from its JSON body; an absent or `null` field is None. */
  datatype PostBody = PostBody(
    date: Instant,
    customerName: string,
    phoneNumber: string,
    nailTechId: Option<int>,
    nailTechName: Option<string>)

  /** An appointment with its nail tech relation included (`include: { nailTech: true }`). */
  datatype Listed = Listed(appointment: Appointment, nailTech: Option<NailTech>)

  datatype PostResponse = Created(appointment: Listed) | Unauthorized | UserNotFound

  datatype GetResponse = Appointments(appointments: seq<Listed>) | GetUnauthorized | GetUserNotFound

  /** The HTTP status of a POST response. */
  function PostStatus(r: PostResponse): int
  {
    match r
    case Created(_) => 200
    case Unauthorized => 401
    case UserNotFound => 404
  }

  /** The HTTP status of a GET response. */
  function GetStatus(r: GetResponse): int
  {
    match r
    case Appointments(_) => 200
    case GetUnauthorized => 401
    case GetUserNotFound => 404
  }

  /** The whole store as a value. */
  datatype Db = Db(
    users: seq<User>,
    nailTechs: seq<NailTech>,
    appointments: seq<Appointment>,
    nextTechId: int,
    nextAppointmentId: int)

  /** `clerkUserId` is a unique column of the user table. */
  predicate UniqueClerkIds(users: seq<User>)
  {
    forall i, j :: 0 <= i < j < |users| ==> users[i].clerkUserId != users[j].clerkUserId
  }

  /** Auto-increment keys start at 1, stay below the next key and never repeat. */
  predicate TechIdsIssued(techs: seq<NailTech>, next: int)
  {
    1 <= next &&
    (forall i :: 0 <= i < |techs| ==> 1 <= techs[i].id < next) &&
    (forall i, j :: 0 <= i < j < |techs| ==> techs[i].id != techs[j].id)
  }

  predicate AppointmentIdsIssued(appointments: seq<Appointment>, next: int)
  {
    1 <= next &&
    (forall i :: 0 <= i < |appointments| ==> 1 <= appointments[i].id < next) &&
    (forall i, j :: 0 <= i < j < |appointments| ==> appointments[i].id != appointments[j].id)
  }

  /** The constraints the database keeps: unique clerk ids and issued primary keys. */
  predicate DbValid(db: Db)
  {
    UniqueClerkIds(db.users) &&
    TechIdsIssued(db.nailTechs, db.nextTechId) &&
    AppointmentIdsIssued(db.appointments, db.nextAppointmentId)
  }

  /** `prisma.user.findUnique({ where: { clerkUserId } })`. */
  function FindUser(users: seq<User>, clerkUserId: string): (r: Option<User>)
    ensures r.Some? ==> r.value in users && r.value.clerkUserId == clerkUserId
    ensures r.None? ==> forall u :: u in users ==> u.clerkUserId != clerkUserId
  {
    if users == [] then None
    else if users[0].clerkUserId == clerkUserId then Some(users[0])
    else FindUser(users[1..], clerkUserId)
  }

  /** With unique clerk ids, the user found is the only one with that clerk id. */
  lemma {:induction false} FindUserUnique(users: seq<User>, clerkUserId: string, u: User)
    requires UniqueClerkIds(users) && u in users && u.clerkUserId == clerkUserId
    ensures FindUser(users, clerkUserId) == Some(u)
  {
    if users[0] != u {
      assert users[0].clerkUserId != clerkUserId by {
        var j :| 0 <= j < |users| && users[j] == u;
      }
      assert u in users[1..];
      FindUserUnique(users[1..], clerkUserId, u);
    }
  }

  /** The nail tech an appointment refers to, as `include: { nailTech: true }` loads it. */
  function TechById(techs: seq<NailTech>, id: Option<int>): (r: Option<NailTech>)
    ensures r.Some? ==> r.value in techs && id == Some(r.value.id)
    ensures r.None? ==> id.None? || forall t :: t in techs ==> t.id != id.value
  {
    if id.None? || techs == [] then None
    else if techs[0].id == id.value then Some(techs[0])
    else TechById(techs[1..], id)
  }

  /** With unique tech ids, the tech loaded for an id is the one with that id. */
  lemma {:induction false} TechByIdUnique(techs: seq<NailTech>, t: NailTech, next: int)
    requires TechIdsIssued(techs, next) && t in techs
    ensures TechById(techs, Some(t.id)) == Some(t)
  {
    if techs[0] != t {
      assert techs[0].id != t.id by {
        var j :| 0 <= j < |techs| && techs[j] == t;
      }
      assert TechIdsIssued(techs[1..], next) by {
        forall i, j | 0 <= i < j < |techs[1..]| ensures techs[1..][i].id != techs[1..][j].id {
          assert techs[1..][i] == techs[i + 1] && techs[1..][j] == techs[j + 1];
        }
      }
      assert t in techs[1..];
      TechByIdUnique(techs[1..], t, next);
    }
  }

  /** Whether POST creates a nail tech: no usable id given (`!nailTechId`) but a name (`nailTechName`). */
  predicate CreatesTech(body: PostBody)
  {
    !OptionalNumberTruthy(body.nailTechId) && OptionalStringTruthy(body.nailTechName)
  }

  /** The store and the response after one POST, step by step as the handler takes them. */
  function PostSpec(db: Db, clerkUserId: Option<string>, body: PostBody): (Db, PostResponse)
  {
    if !OptionalStringTruthy(clerkUserId) then (db, Unauthorized)
    else
      match FindUser(db.users, clerkUserId.value)
      case None => (db, UserNotFound)
      case Some(user) =>
        var techs := if CreatesTech(body) then db.nailTechs + [NailTech(db.nextTechId, body.nailTechName.value)] else db.nailTechs;
        var nextTechId := if CreatesTech(body) then db.nextTechId + 1 else db.nextTechId;
        var finalNailTechId := if CreatesTech(body) then Some(db.nextTechId) else body.nailTechId;
        var appointment := Appointment(db.nextAppointmentId, body.date, user.id, "confirmed",
                                       body.customerName, body.phoneNumber, finalNailTechId);
        (Db(db.users, techs, db.appointments + [appointment], nextTechId, db.nextAppointmentId + 1),
         Created(Listed(appointment, TechById(techs, finalNailTechId))))
  }

  // ---------------------------------------------------------------------
  // Listing: filter by owner, order by date descending

  /** `where: { userId }`: the appointments owned by `userId`, in store order. */
  function OwnedBy(appointments: seq<Appointment>, userId: int): (r: seq<Appointment>)
    ensures forall a :: multiset(r)[a] == if a.userId == userId then multiset(appointments)[a] else 0
  {
    if appointments == [] then []
    else
      var last := appointments[|appointments| - 1];
      var init := OwnedBy(appointments[..|appointments| - 1], userId);
      assert appointments == appointments[..|appointments| - 1] + [last];
      if last.userId == userId then init + [last] else init
  }

  predicate SortedByDateDesc(xs: seq<Appointment>)
  {
    forall i, j :: 0 <= i < j < |xs| ==> xs[i].date >= xs[j].date
  }

  /** Inserts `a` into a newest-first list before the first appointment not newer than it. */
  function InsertByDate(a: Appointment, xs: seq<Appointment>): (r: seq<Appointment>)
    requires SortedByDateDesc(xs)
    ensures SortedByDateDesc(r)
    ensures multiset(r) == multiset(xs) + multiset{a}
  {
    if xs == [] || a.date >= xs[0].date then
      SortedCons(a, xs);
      [a] + xs
    else
      var rest := InsertByDate(a, xs[1..]);
      assert xs == [xs[0]] + xs[1..];
      NoNewerThanHead(a, xs, rest);
      SortedCons(xs[0], rest);
      [xs[0]] + rest
  }

  /** Putting an appointment no older than a newest-first list's elements in front keeps it newest first. */
  lemma SortedCons(x: Appointment, ys: seq<Appointment>)
    requires SortedByDateDesc(ys)
    requires ys == [] || x.date >= ys[0].date || forall e :: e in ys ==> e.date <= x.date
    ensures SortedByDateDesc([x] + ys)
  {
    forall i, j | 0 <= i < j < |[x] + ys| ensures ([x] + ys)[i].date >= ([x] + ys)[j].date {
      if i == 0 {
        assert ([x] + ys)[j] == ys[j - 1] && ys[j - 1] in ys;
      } else {
        assert ([x] + ys)[i] == ys[i - 1] && ([x] + ys)[j] == ys[j - 1];
      }
    }
  }

  /** Whatever holds the tail of a newest-first list and an older `a` holds nothing newer than the list's head. */
  lemma NoNewerThanHead(a: Appointment, xs: seq<Appointment>, rest: seq<Appointment>)
    requires xs != [] && SortedByDateDesc(xs) && a.date < xs[0].date
    requires multiset(rest) == multiset(xs[1..]) + multiset{a}
    ensures forall e :: e in rest ==> e.date <= xs[0].date
  {
    forall e | e in rest ensures e.date <= xs[0].date {
      assert e in multiset(rest);
      if e != a {
        assert e in multiset(xs[1..]);
        var k :| 0 <= k < |xs[1..]| && xs[1..][k] == e;
        assert xs[k + 1] == e;
      }
    }
  }

  /** `orderBy: { date: "desc" }`: newest first, a permutation of the input. */
  function SortByDateDesc(xs: seq<Appointment>): (r: seq<Appointment>)
    ensures SortedByDateDesc(r)
    ensures multiset(r) == multiset(xs)
  {
    if xs == [] then []
    else
      assert xs == [xs[0]] + xs[1..];
      InsertByDate(xs[0], SortByDateDesc(xs[1..]))
  }

  /** Each appointment with its nail tech loaded. */
  function WithTechs(xs: seq<Appointment>, techs: seq<NailTech>): (r: seq<Listed>)
    ensures |r| == |xs|
    ensures forall i :: 0 <= i < |r| ==> r[i].appointment == xs[i] && r[i].nailTech == TechById(techs, xs[i].nailTechId)
  {
    seq(|xs|, i requires 0 <= i < |xs| => Listed(xs[i], TechById(techs, xs[i].nailTechId)))
  }

  /** The appointments of a listing, without their techs. */
  function AppointmentsOf(listed: seq<Listed>): (r: seq<Appointment>)
    ensures |r| == |listed|
    ensures forall i :: 0 <= i < |r| ==> r[i] == listed[i].appointment
  {
    seq(|listed|, i requires 0 <= i < |listed| => listed[i].appointment)
  }

  /**
   * `prisma.appointment.findMany`: the appointments of `userId`, newest
   * first, each with its nail tech.
   */
  function FindManyOwned(db: Db, userId: int): (r: seq<Listed>)
    ensures multiset(AppointmentsOf(r)) == multiset(OwnedBy(db.appointments, userId))
    ensures SortedByDateDesc(AppointmentsOf(r))
    ensures forall i :: 0 <= i < |r| ==> r[i].nailTech == TechById(db.nailTechs, r[i].appointment.nailTechId)
  {
    var sorted := SortByDateDesc(OwnedBy(db.appointments, userId));
    var r := WithTechs(sorted, db.nailTechs);
    assert AppointmentsOf(r) == sorted;
    r
  }

  /** The response to GET. */
  function GetSpec(db: Db, clerkUserId: Option<string>): GetResponse
  {
    if !OptionalStringTruthy(clerkUserId) then GetUnauthorized
    else
      match FindUser(db.users, clerkUserId.value)
      case None => GetUserNotFound
      case Some(user) => Appointments(FindManyOwned(db, user.id))
  }

  // ---------------------------------------------------------------------
  // The store

  /** The database, as the route handlers see it through its client. */
  class Store {
    var users: seq<User>
    var nailTechs: seq<NailTech>
    var appointments: seq<Appointment>
    var nextTechId: int
    var nextAppointmentId: int

    function State(): Db
      reads this
    {
      Db(users, nailTechs, appointments, nextTechId, nextAppointmentId)
    }

    ghost predicate Valid()
      reads this
    {
      DbValid(State())
    }

    /** A store holding the given users and no nail techs or appointments yet. */
    constructor (users: seq<User>)
      requires UniqueClerkIds(users)
      ensures Valid()
      ensures State() == Db(users, [], [], 1, 1)
    {
      this.users := users;
      nailTechs := [];
      appointments := [];
      nextTechId := 1;
      nextAppointmentId := 1;
    }

    /** `prisma.nailTech.create({ data: { name } })`: appends a tech under the next key. */
    method CreateNailTech(name: string) returns (tech: NailTech)
      requires Valid()
      modifies this
      ensures Valid()
      ensures tech == NailTech(old(nextTechId), name)
      ensures State() == old(State()).(nailTechs := old(nailTechs) + [tech], nextTechId := old(nextTechId) + 1)
    {
      tech := NailTech(nextTechId, name);
      nailTechs := nailTechs + [tech];
      nextTechId := nextTechId + 1;
    }

    /** `prisma.appointment.create({ data, include: { nailTech: true } })`: appends an appointment under the next key. */
    method CreateAppointment(date: Instant, userId: int, status: string, customerName: string,
                             phoneNumber: string, nailTechId: Option<int>) returns (created: Listed)
      requires Valid()
      modifies this
      ensures Valid()
      ensures created.appointment == Appointment(old(nextAppointmentId), date, userId, status, customerName, phoneNumber, nailTechId)
      ensures created.nailTech == TechById(nailTechs, nailTechId)
      ensures State() == old(State()).(appointments := old(appointments) + [created.appointment],
                                       nextAppointmentId := old(nextAppointmentId) + 1)
    {
      var appointment := Appointment(nextAppointmentId, date, userId, status, customerName, phoneNumber, nailTechId);
      appointments := appointments + [appointment];
      nextAppointmentId := nextAppointmentId + 1;
      created := Listed(appointment, TechById(nailTechs, nailTechId));
    }

    /** The POST handler. */
    method Post(clerkUserId: Option<string>, body: PostBody) returns (response: PostResponse)
      requires Valid()
      modifies this
      ensures Valid()
      ensures (State(), response) == PostSpec(old(State()), clerkUserId, body)
    {
      if !OptionalStringTruthy(clerkUserId) {
        return Unauthorized;
      }
      var user := FindUser(users, clerkUserId.value);
      if user.None? {
        return UserNotFound;
      }
      var finalNailTechId := body.nailTechId;
      if !OptionalNumberTruthy(body.nailTechId) && OptionalStringTruthy(body.nailTechName) {
        var newTech := CreateNailTech(body.nailTechName.value);
        finalNailTechId := Some(newTech.id);
      }
      var appointment := CreateAppointment(body.date, user.value.id, "confirmed",
                                           body.customerName, body.phoneNumber, finalNailTechId);
      response := Created(appointment);
    }

    /** The GET handler; it reads the store and changes nothing. */
    method Get(clerkUserId: Option<string>) returns (response: GetResponse)
      ensures response == GetSpec(State(), clerkUserId)
    {
      if !OptionalStringTruthy(clerkUserId) {
        return GetUnauthorized;
      }
      var user := FindUser(users, clerkUserId.value);
      if user.None? {
        return GetUserNotFound;
      }
      response := Appointments(FindManyOwned(State(), user.value.id));
    }
  }

  // ---------------------------------------------------------------------
  // What the handlers promise

  /** Without a signed-in caller both handlers answer 401, and POST writes nothing. */
  lemma NotSignedIn(db: Db, clerkUserId: Option<string>, body: PostBody)
    requires !OptionalStringTruthy(clerkUserId)
    ensures PostSpec(db, clerkUserId, body).0 == db
    ensures PostStatus(PostSpec(db, clerkUserId, body).1) == 401
    ensures GetStatus(GetSpec(db, clerkUserId)) == 401
  {
  }

  /** A signed-in caller without a user record gets 404 from both handlers, and POST writes nothing. */
  lemma UnknownUser(db: Db, clerkUserId: Option<string>, body: PostBody)
    requires OptionalStringTruthy(clerkUserId)
    requires forall u :: u in db.users ==> u.clerkUserId != clerkUserId.value
    ensures PostSpec(db, clerkUserId, body).0 == db
    ensures PostStatus(PostSpec(db, clerkUserId, body).1) == 404
    ensures GetStatus(GetSpec(db, clerkUserId)) == 404
  {
  }

  /**
   * POST succeeds exactly when the caller is signed in and has a user
   * record. Nothing else is looked at: not the date, not the name or phone,
   * not the existing appointments or techs.
   */
  lemma PostSucceedsIff(db: Db, clerkUserId: Option<string>, body: PostBody)
    ensures PostSpec(db, clerkUserId, body).1.Created? <==>
      OptionalStringTruthy(clerkUserId) && exists u :: u in db.users && u.clerkUserId == clerkUserId.value
  {
  }

  /**
   * A successful POST by `user` appends exactly one appointment, confirmed,
   * owned by `user`, carrying the body's date, name and phone, under an id
   * no stored appointment has; the users are untouched.
   */
  lemma PostAppends(db: Db, clerkUserId: Option<string>, body: PostBody, user: User)
    requires DbValid(db)
    requires OptionalStringTruthy(clerkUserId) && user in db.users && user.clerkUserId == clerkUserId.value
    ensures PostSpec(db, clerkUserId, body).1.Created?
    ensures var after := PostSpec(db, clerkUserId, body).0;
      var created := PostSpec(db, clerkUserId, body).1.appointment.appointment;
      after.users == db.users &&
      after.appointments == db.appointments + [created] &&
      created.status == "confirmed" && created.userId == user.id &&
      created.date == body.date && created.customerName == body.customerName &&
      created.phoneNumber == body.phoneNumber &&
      forall a :: a in db.appointments ==> a.id != created.id
  {
    FindUserUnique(db.users, clerkUserId.value, user);
  }

  /** Every key issued after a POST is still unique and below the next key. */
  lemma PostPreservesValid(db: Db, clerkUserId: Option<string>, body: PostBody)
    requires DbValid(db)
    ensures DbValid(PostSpec(db, clerkUserId, body).0)
  {
    var after := PostSpec(db, clerkUserId, body).0;
    if after != db {
      var created := after.appointments[|after.appointments| - 1];
      assert after.appointments == db.appointments + [created];
      AppointmentKeyIssued(db.appointments, created);
      if CreatesTech(body) {
        TechKeyIssued(db.nailTechs, db.nextTechId, body.nailTechName.value);
      }
    }
  }

  /** Creating a tech under the next key keeps the tech keys issued. */
  lemma TechKeyIssued(techs: seq<NailTech>, next: int, name: string)
    requires TechIdsIssued(techs, next)
    ensures TechIdsIssued(techs + [NailTech(next, name)], next + 1)
  {
  }

  /** Creating an appointment under the next key keeps the appointment keys issued. */
  lemma AppointmentKeyIssued(appointments: seq<Appointment>, created: Appointment)
    requires AppointmentIdsIssued(appointments, created.id)
    ensures AppointmentIdsIssued(appointments + [created], created.id + 1)
  {
  }

  /**
   * A successful POST creates a nail tech iff no non-zero `nailTechId` was
   * sent and a non-empty `nailTechName` was. A created tech has the sent
   * name and a fresh non-zero id, and the appointment refers to it and
   * comes back with it; otherwise the techs are untouched and the sent
   * `nailTechId` is stored as it came.
   */
  lemma PostResolvesTech(db: Db, clerkUserId: Option<string>, body: PostBody)
    requires DbValid(db)
    requires PostSpec(db, clerkUserId, body).1.Created?
    ensures var after := PostSpec(db, clerkUserId, body).0;
      var created := PostSpec(db, clerkUserId, body).1.appointment;
      if CreatesTech(body) then
        exists tech: NailTech ::
          after.nailTechs == db.nailTechs + [tech] &&
          tech.name == body.nailTechName.value && tech.id != 0 &&
          (forall t :: t in db.nailTechs ==> t.id != tech.id) &&
          created.appointment.nailTechId == Some(tech.id) && created.nailTech == Some(tech)
      else
        after.nailTechs == db.nailTechs &&
        created.appointment.nailTechId == body.nailTechId &&
        created.nailTech == TechById(db.nailTechs, body.nailTechId)
  {
    var after := PostSpec(db, clerkUserId, body).0;
    if CreatesTech(body) {
      var tech := NailTech(db.nextTechId, body.nailTechName.value);
      PostPreservesValid(db, clerkUserId, body);
      TechByIdUnique(after.nailTechs, tech, after.nextTechId);
    }
  }

  /** A non-zero `nailTechId` is stored as sent, even beside a tech name, and no tech is created. */
  lemma SuppliedTechIdKept(db: Db, clerkUserId: Option<string>, body: PostBody)
    requires OptionalNumberTruthy(body.nailTechId)
    requires PostSpec(db, clerkUserId, body).1.Created?
    ensures PostSpec(db, clerkUserId, body).0.nailTechs == db.nailTechs
    ensures PostSpec(db, clerkUserId, body).1.appointment.appointment.nailTechId == body.nailTechId
  {
  }

  /**
   * There is no conflict check: after one booking succeeds, the same
   * request again succeeds too, and the store then holds two confirmed
   * appointments at the same instant with the same tech.
   */
  lemma {:induction false} DoubleBookingAccepted(db: Db, clerkUserId: Option<string>, body: PostBody)
    requires DbValid(db)
    requires OptionalNumberTruthy(body.nailTechId)
    requires PostSpec(db, clerkUserId, body).1.Created?
    ensures var once := PostSpec(db, clerkUserId, body);
      var twice := PostSpec(once.0, clerkUserId, body);
      twice.1.Created? &&
      var first := once.1.appointment.appointment;
      var second := twice.1.appointment.appointment;
      first.id != second.id && first.date == second.date && first.nailTechId == second.nailTechId &&
      first in twice.0.appointments && second in twice.0.appointments
    ensures (exists t :: t in db.nailTechs && Some(t.id) == body.nailTechId) ==>
      var once := PostSpec(db, clerkUserId, body);
      var twice := PostSpec(once.0, clerkUserId, body);
      once.1.appointment.nailTech.Some? && twice.1.appointment.nailTech == once.1.appointment.nailTech
  {
    var once := PostSpec(db, clerkUserId, body);
    var user := FindUser(db.users, clerkUserId.value).value;
    PostPreservesValid(db, clerkUserId, body);
    PostAppends(db, clerkUserId, body, user);
    PostAppends(once.0, clerkUserId, body, user);
  }

  /**
   * Techs are never looked up by name: sending the same new tech name twice
   * creates two techs of that name with different ids.
   */
  lemma {:induction false} SameTechNameTwice(db: Db, clerkUserId: Option<string>, body: PostBody)
    requires DbValid(db)
    requires CreatesTech(body)
    requires PostSpec(db, clerkUserId, body).1.Created?
    ensures var once := PostSpec(db, clerkUserId, body);
      var twice := PostSpec(once.0, clerkUserId, body);
      |twice.0.nailTechs| == |db.nailTechs| + 2 &&
      twice.0.nailTechs[|db.nailTechs|].name == twice.0.nailTechs[|db.nailTechs| + 1].name == body.nailTechName.value &&
      twice.0.nailTechs[|db.nailTechs|].id != twice.0.nailTechs[|db.nailTechs| + 1].id
  {
    var once := PostSpec(db, clerkUserId, body);
    var user := FindUser(db.users, clerkUserId.value).value;
    PostPreservesValid(db, clerkUserId, body);
    PostAppends(db, clerkUserId, body, user);
    PostResolvesTech(db, clerkUserId, body);
    PostResolvesTech(once.0, clerkUserId, body);
  }

  /**
   * GET lists exactly the caller's appointments, each once per stored copy,
   * newest first, each with the tech its `nailTechId` refers to.
   */
  lemma GetListsOwn(db: Db, clerkUserId: Option<string>, user: User)
    requires UniqueClerkIds(db.users)
    requires OptionalStringTruthy(clerkUserId) && user in db.users && user.clerkUserId == clerkUserId.value
    ensures GetSpec(db, clerkUserId).Appointments?
    ensures var listed := GetSpec(db, clerkUserId).appointments;
      (forall a :: a in AppointmentsOf(listed) <==> a in db.appointments && a.userId == user.id) &&
      (forall a :: multiset(AppointmentsOf(listed))[a] == if a.userId == user.id then multiset(db.appointments)[a] else 0) &&
      SortedByDateDesc(AppointmentsOf(listed)) &&
      (forall i :: 0 <= i < |listed| ==> listed[i].nailTech == TechById(db.nailTechs, listed[i].appointment.nailTechId))
  {
    FindUserUnique(db.users, clerkUserId.value, user);
    var listed := GetSpec(db, clerkUserId).appointments;
    forall a ensures a in AppointmentsOf(listed) <==> a in db.appointments && a.userId == user.id {
      assert a in AppointmentsOf(listed) <==> a in multiset(AppointmentsOf(listed));
      assert a in db.appointments <==> a in multiset(db.appointments);
    }
  }

  /**
   * What a POST creates shows up in the caller's next GET: the listing
   * afterwards is the listing before plus the new appointment.
   */
  lemma {:induction false} PostThenGet(db: Db, clerkUserId: Option<string>, body: PostBody)
    requires DbValid(db)
    requires PostSpec(db, clerkUserId, body).1.Created?
    ensures GetSpec(db, clerkUserId).Appointments?
    ensures var after := PostSpec(db, clerkUserId, body);
      GetSpec(after.0, clerkUserId).Appointments? &&
      multiset(AppointmentsOf(GetSpec(after.0, clerkUserId).appointments)) ==
        multiset(AppointmentsOf(GetSpec(db, clerkUserId).appointments)) + multiset{after.1.appointment.appointment}
  {
    var after := PostSpec(db, clerkUserId, body);
    var user := FindUser(db.users, clerkUserId.value).value;
    PostAppends(db, clerkUserId, body, user);
    var created := after.1.appointment.appointment;
    assert (db.appointments + [created])[..|db.appointments|] == db.appointments;
  }
}
