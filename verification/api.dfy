/** The mock backend of src/services/api.ts. The browser's storage holds four
    keys: a list of users, and the services, bookings and clients of every
    business, each a record from the business's id to that business's list.
    Here that storage is one immutable `Store` value, and every call is a
    function from the store before to the reply and the store after. The
    identifiers the source derives from `Date.now()` are built from a
    `stamp` argument instead. */
module Api {
  import opened Common
  import opened Types
  import Slots
  import Strings

  datatype Store = Store(
    users: seq<User>,
    currentUser: Option<User>,
    services: map<UserId, seq<Service>>,
    bookings: map<UserId, seq<Booking>>,
    clients: map<UserId, seq<Client>>)

  /** Storage before anything was written. */
  const Empty: Store := Store([], None, map[], map[], map[])

  /** `all[userId] || []`: one business's list, empty when none is stored. */
  function Partition<T>(all: map<UserId, seq<T>>, userId: UserId): seq<T> {
    if userId in all then all[userId] else []
  }

  // ---------------------------------------------------------------- Auth

  /** `login`: the first user registered with `email` becomes the current
      user. The password is not checked. */
  function Login(s: Store, email: string): (out: (Reply<User>, Store))
    ensures out.0.Success? <==> exists i :: 0 <= i < |s.users| && s.users[i].email == email
    ensures out.0.Failure? ==> out.0.error == UserNotFound && out.1 == s
    ensures out.0.Success? ==>
              exists i :: 0 <= i < |s.users| && s.users[i] == out.0.data && out.0.data.email == email
                          && forall j :: 0 <= j < i ==> s.users[j].email != email
    ensures out.0.Success? ==> out.1 == s.(currentUser := Some(out.0.data))
  {
    match FindIndex(s.users, (u: User) => u.email == email)
    case None => (Failure(UserNotFound), s)
    case Some(i) => (Success(s.users[i]), s.(currentUser := Some(s.users[i])))
  }

  /** The fields a registration form may send (`Partial<User>`). */
  datatype Registration = Registration(
    email: Option<string>,
    businessName: Option<string>,
    fullName: Option<string>)

  /** Some stored user has exactly this email. An absent email equals no
      stored email, as `u.email === undefined` is false for every string. */
  predicate EmailTaken(users: seq<User>, email: Option<string>) {
    FindIndex(users, (u: User) => Some(u.email) == email).Some?
  }

  /** `register`: refuses an email already in use; otherwise appends a new
      user with both connections off and makes it the current user. */
  function Register(s: Store, data: Registration, stamp: string): (out: (Reply<User>, Store))
    ensures out.0.Failure? <==>
              data.email.Some? && exists i :: 0 <= i < |s.users| && s.users[i].email == data.email.value
    ensures out.0.Failure? ==> out.0.error == EmailInUse && out.1 == s
    ensures out.0.Success? ==>
              var u := out.0.data;
              && u.id == "user_" + stamp
              && u.email == data.email.GetOr("")
              && u.businessName == data.businessName.GetOr("")
              && u.fullName == data.fullName.GetOr("")
              && !u.googleCalendarConnected && !u.twilioTokenConnected && u.twilioToken.None?
              && out.1 == s.(users := s.users + [u], currentUser := Some(u))
  {
    if EmailTaken(s.users, data.email) then
      assert exists i :: 0 <= i < |s.users| && s.users[i].email == data.email.value by {
        var i := FindIndex(s.users, (u: User) => Some(u.email) == data.email).value;
        assert s.users[i].email == data.email.value;
      }
      (Failure(EmailInUse), s)
    else
      // `userData.x || ""` gives "" both for an absent and an empty field.
      var u := User("user_" + stamp, data.email.GetOr(""), data.businessName.GetOr(""),
                    data.fullName.GetOr(""), false, false, None);
      assert data.email.Some? ==> forall i :: 0 <= i < |s.users| ==> s.users[i].email != data.email.value by {
        if data.email.Some? {
          forall i | 0 <= i < |s.users| ensures s.users[i].email != data.email.value {
            assert !((u: User) => Some(u.email) == data.email)(s.users[i]);
          }
        }
      }
      (Success(u), s.(users := s.users + [u], currentUser := Some(u)))
  }

  /** `logout`: forgets the current user. */
  function Logout(s: Store): (out: (Reply<()>, Store))
    ensures out.0.Success?
    ensures out.1.currentUser.None?
    ensures out.1 == s.(currentUser := None)
  {
    (Success(()), s.(currentUser := None))
  }

  /** Every stored user with `u`'s id is replaced by `u`, as the
      `users.map(...)` of both connection calls does. */
  function ReplaceUser(users: seq<User>, u: User): (r: seq<User>)
    ensures |r| == |users|
    ensures forall i :: 0 <= i < |users| && users[i].id == u.id ==> r[i] == u
    ensures forall i :: 0 <= i < |users| && users[i].id != u.id ==> r[i] == users[i]
  {
    seq(|users|, i requires 0 <= i < |users| => if users[i].id == u.id then u else users[i])
  }

  /** The current user, with `connect` applied, written back both as the
      current user and over every stored user with the same id. */
  function UpdateCurrentUser(s: Store, connect: User -> User): (out: (Reply<User>, Store))
    ensures s.currentUser.None? <==> out.0.Failure?
    ensures out.0.Failure? ==> out.0.error == UserNotFound && out.1 == s
    ensures out.0.Success? ==>
              && out.0.data == connect(s.currentUser.value)
              && out.1 == s.(currentUser := Some(out.0.data),
                             users := ReplaceUser(s.users, out.0.data))
  {
    match s.currentUser
    case None => (Failure(UserNotFound), s)
    case Some(cu) =>
      var u := connect(cu);
      (Success(u), s.(currentUser := Some(u), users := ReplaceUser(s.users, u)))
  }

  /** `connectGoogleCalendar`: marks the current user's calendar as
      connected. */
  function ConnectGoogleCalendar(s: Store): (out: (Reply<User>, Store))
    ensures s.currentUser.None? ==> out.0 == Failure(UserNotFound) && out.1 == s
    ensures s.currentUser.Some? ==>
              && out.0.Success?
              && out.0.data == s.currentUser.value.(googleCalendarConnected := true)
              && out.1.currentUser == Some(out.0.data)
              && |out.1.users| == |s.users|
              && (forall i :: 0 <= i < |s.users| ==>
                    out.1.users[i] == if s.users[i].id == out.0.data.id then out.0.data else s.users[i])
              && out.1 == s.(currentUser := out.1.currentUser, users := out.1.users)
  {
    UpdateCurrentUser(s, (u: User) => u.(googleCalendarConnected := true))
  }

  /** A Twilio token is refused when absent or shorter than ten characters. */
  predicate ValidTwilioToken(token: Option<string>) {
    token.Some? && |token.value| >= 10
  }

  /** `connectTwilio`: validates the token first, then stores it on the
      current user and marks the connection. */
  function ConnectTwilio(s: Store, token: Option<string>): (out: (Reply<User>, Store))
    ensures !ValidTwilioToken(token) ==> out.0 == Failure(InvalidTwilioToken) && out.1 == s
    ensures ValidTwilioToken(token) && s.currentUser.None? ==> out.0 == Failure(UserNotFound) && out.1 == s
    ensures ValidTwilioToken(token) && s.currentUser.Some? ==>
              && out.0.Success?
              && out.0.data == s.currentUser.value.(twilioTokenConnected := true, twilioToken := token)
              && out.1.currentUser == Some(out.0.data)
              && |out.1.users| == |s.users|
              && (forall i :: 0 <= i < |s.users| ==>
                    out.1.users[i] == if s.users[i].id == out.0.data.id then out.0.data else s.users[i])
              && out.1 == s.(currentUser := out.1.currentUser, users := out.1.users)
  {
    if !ValidTwilioToken(token) then (Failure(InvalidTwilioToken), s)
    else UpdateCurrentUser(s, (u: User) => u.(twilioTokenConnected := true, twilioToken := token))
  }

  // ------------------------------------------------------------ Services

  /** The fields a service form may send (`Partial<Service>`); `None` is a
      key the object does not carry. */
  datatype ServiceDraft = ServiceDraft(
    id: Option<string>,
    name: Option<string>,
    duration: Option<int>,
    price: Option<real>,
    enablePayment: Option<bool>)

  /** A complete service seen as a draft carrying every field. */
  function AsDraft(svc: Service): (d: ServiceDraft)
    ensures d.id == Some(svc.id) && d.name == Some(svc.name) && d.duration == Some(svc.duration)
    ensures d.price == Some(svc.price) && d.enablePayment == Some(svc.enablePayment)
  {
    ServiceDraft(Some(svc.id), Some(svc.name), Some(svc.duration), Some(svc.price), Some(svc.enablePayment))
  }

  /** `{ ...base, ...d }`: every field the draft carries wins. */
  function Overlay(base: Service, d: ServiceDraft): (r: Service)
    ensures d.name.Some? ==> r.name == d.name.value
    ensures d.name.None? ==> r.name == base.name
    ensures d.duration.Some? ==> r.duration == d.duration.value
    ensures d.duration.None? ==> r.duration == base.duration
    ensures d.price.Some? ==> r.price == d.price.value
    ensures d.price.None? ==> r.price == base.price
    ensures d.enablePayment.Some? ==> r.enablePayment == d.enablePayment.value
    ensures d.enablePayment.None? ==> r.enablePayment == base.enablePayment
    ensures d.id.Some? ==> r.id == d.id.value
    ensures d.id.None? ==> r.id == base.id
  {
    Service(d.id.GetOr(base.id), d.name.GetOr(base.name), d.duration.GetOr(base.duration),
            d.price.GetOr(base.price), d.enablePayment.GetOr(base.enablePayment))
  }

  /** The service `saveService` creates from a draft without id: a falsy
      duration becomes 30, a falsy price 0, a missing name "" and a missing
      payment flag false. */
  function NewService(d: ServiceDraft, stamp: string): (svc: Service)
    ensures svc.id == "service_" + stamp
    ensures svc.name == d.name.GetOr("")
    ensures d.duration.None? || d.duration.value == 0 ==> svc.duration == 30
    ensures d.duration.Some? && d.duration.value != 0 ==> svc.duration == d.duration.value
    ensures svc.duration != 0
    ensures d.price.None? ==> svc.price == 0.0
    ensures d.price.Some? ==> svc.price == d.price.value
    ensures svc.enablePayment <==> d.enablePayment == Some(true)
  {
    var duration := if d.duration.None? || d.duration.value == 0 then 30 else d.duration.value;
    // `price || 0` keeps every price but 0, and turns 0 into 0.
    Service("service_" + stamp, d.name.GetOr(""), duration, d.price.GetOr(0.0), d.enablePayment.GetOr(false))
  }

  /** Every service with id `id` is replaced by `svc`. */
  function ReplaceService(ss: seq<Service>, id: string, svc: Service): (r: seq<Service>)
    ensures |r| == |ss|
    ensures forall i :: 0 <= i < |ss| && ss[i].id == id ==> r[i] == svc
    ensures forall i :: 0 <= i < |ss| && ss[i].id != id ==> r[i] == ss[i]
  {
    seq(|ss|, i requires 0 <= i < |ss| => if ss[i].id == id then svc else ss[i])
  }

  /** The in-place half of `saveService`, for a draft with id: the first
      service with that id, overlaid with the draft, replaces every service
      with that id; with no such service the list and the draft come back
      as they were. */
  function UpdateService(ss: seq<Service>, d: ServiceDraft): (r: (ServiceDraft, seq<Service>))
    requires d.id.Some?
    ensures |r.1| == |ss|
    ensures forall i :: 0 <= i < |ss| && ss[i].id != d.id.value ==> r.1[i] == ss[i]
    ensures forall i :: 0 <= i < |ss| && ss[i].id == d.id.value ==>
              exists k :: 0 <= k <= i && ss[k].id == d.id.value && r.1[i] == Overlay(ss[k], d)
                          && (forall j :: 0 <= j < k ==> ss[j].id != d.id.value)
                          && r.0 == AsDraft(r.1[i])
    ensures (forall i :: 0 <= i < |ss| ==> ss[i].id != d.id.value) ==> r == (d, ss)
  {
    match FindIndex(ss, (x: Service) => x.id == d.id.value)
    case Some(k) =>
      var merged := Overlay(ss[k], d);
      var ss' := ReplaceService(ss, d.id.value, merged);
      assert forall i :: 0 <= i < |ss| && ss[i].id == d.id.value ==> k <= i && ss'[i] == merged;
      (AsDraft(merged), ss')
    case None => (d, ss)
  }

  /** `saveService`. A draft with a (truthy) id updates in place: the first
      service with that id, overlaid with the draft, replaces every service
      with that id. Without an id a new service is appended. An unknown id
      changes nothing and still succeeds, echoing the draft back. */
  function SaveService(s: Store, userId: UserId, d: ServiceDraft, stamp: string): (out: (Reply<ServiceDraft>, Store))
    ensures out.0.Success?
    ensures out.1 == s.(services := s.services[userId := Partition(out.1.services, userId)])
    ensures Falsy(d.id) ==>
              && Partition(out.1.services, userId) == Partition(s.services, userId) + [NewService(d, stamp)]
              && out.0.data == AsDraft(NewService(d, stamp))
    ensures !Falsy(d.id) ==>
              var ss := Partition(s.services, userId);
              var ss' := Partition(out.1.services, userId);
              && |ss'| == |ss|
              && (forall i :: 0 <= i < |ss| && ss[i].id != d.id.value ==> ss'[i] == ss[i])
              && (forall i :: 0 <= i < |ss| && ss[i].id == d.id.value ==>
                    exists k :: 0 <= k <= i && ss[k].id == d.id.value && ss'[i] == Overlay(ss[k], d)
                                && (forall j :: 0 <= j < k ==> ss[j].id != d.id.value)
                                && out.0.data == AsDraft(ss'[i]))
    ensures !Falsy(d.id) && (forall i :: 0 <= i < |Partition(s.services, userId)| ==>
                               Partition(s.services, userId)[i].id != d.id.value) ==>
              Partition(out.1.services, userId) == Partition(s.services, userId) && out.0.data == d
  {
    var ss := Partition(s.services, userId);
    if !Falsy(d.id) then
      var (saved, ss') := UpdateService(ss, d);
      (Success(saved), s.(services := s.services[userId := ss']))
    else
      var svc := NewService(d, stamp);
      (Success(AsDraft(svc)), s.(services := s.services[userId := ss + [svc]]))
  }

  /** `deleteService`: keeps, in order, exactly the services whose id is not
      `serviceId`; succeeds whether or not anything matched. */
  function DeleteService(s: Store, userId: UserId, serviceId: string): (out: (Reply<bool>, Store))
    ensures out.0 == Success(true)
    ensures out.1 == s.(services := s.services[userId := Partition(out.1.services, userId)])
    ensures forall i :: 0 <= i < |Partition(out.1.services, userId)| ==>
              Partition(out.1.services, userId)[i].id != serviceId
    ensures forall x: Service :: x.id != serviceId ==>
              multiset(Partition(out.1.services, userId))[x] == multiset(Partition(s.services, userId))[x]
    ensures Subsequence(Partition(out.1.services, userId), Partition(s.services, userId))
  {
    var kept := Filter(Partition(s.services, userId), (x: Service) => x.id != serviceId);
    FilterCounts(Partition(s.services, userId), (x: Service) => x.id != serviceId);
    FilterSubsequence(Partition(s.services, userId), (x: Service) => x.id != serviceId);
    (Success(true), s.(services := s.services[userId := kept]))
  }

  /** `getServices`, `getBookings`, `getClients`: one business's list, empty
      when nothing was ever stored for it. */
  function GetServices(s: Store, userId: UserId): (r: Reply<seq<Service>>)
    ensures r.Success?
    ensures userId !in s.services ==> r.data == []
    ensures userId in s.services ==> r.data == s.services[userId]
  {
    Success(Partition(s.services, userId))
  }

  function GetBookings(s: Store, userId: UserId): (r: Reply<seq<Booking>>)
    ensures r.Success?
    ensures userId !in s.bookings ==> r.data == []
    ensures userId in s.bookings ==> r.data == s.bookings[userId]
  {
    Success(Partition(s.bookings, userId))
  }

  function GetClients(s: Store, userId: UserId): (r: Reply<seq<Client>>)
    ensures r.Success?
    ensures userId !in s.clients ==> r.data == []
    ensures userId in s.clients ==> r.data == s.clients[userId]
  {
    Success(Partition(s.clients, userId))
  }

  // ------------------------------------------------------------ Bookings

  /** The fields a booking form may send (`Partial<Booking>`). */
  datatype BookingRequest = BookingRequest(
    userId: Option<string>,
    clientName: Option<string>,
    clientPhone: Option<string>,
    serviceId: Option<string>,
    date: Option<string>,
    time: Option<string>)

  /** A required field of a booking is absent or empty. The phone is not
      required. */
  predicate MissingFields(r: BookingRequest) {
    Falsy(r.userId) || Falsy(r.clientName) || Falsy(r.serviceId) || Falsy(r.date) || Falsy(r.time)
  }

  /** The position of the first client whose phone is `phone`. An absent
      phone matches no client, as `c.phone === undefined` is false for every
      stored phone. */
  function ClientIndex(cs: seq<Client>, phone: Option<string>): (r: Option<nat>)
    ensures r.Some? ==> r.value < |cs| && Some(cs[r.value].phone) == phone
    ensures r.Some? ==> forall j :: 0 <= j < r.value ==> Some(cs[j].phone) != phone
    ensures r.None? <==> forall j :: 0 <= j < |cs| ==> Some(cs[j].phone) != phone
    ensures phone.None? ==> r.None?
  {
    FindIndex(cs, (c: Client) => Some(c.phone) == phone)
  }

  /** The client record `createBooking` adds for a phone it has not seen. */
  function FirstVisit(userId: UserId, name: string, phone: Option<string>, date: string, stamp: string): (c: Client)
    ensures c.totalBookings == 1 && c.lastVisit == Some(date)
    ensures c.name == name && c.phone == phone.GetOr("") && c.userId == userId
    ensures c.id == "client_" + stamp && c.email.None?
  {
    Client("client_" + stamp, name, phone.GetOr(""), None, Some(date), 1, userId)
  }

  /** The client half of `createBooking`: the first client with the same
      phone gets one more booking and the new date as its last visit (the
      newest write wins, whatever the dates); otherwise one new client is
      appended. */
  function UpsertClient(cs: seq<Client>, userId: UserId, name: string, phone: Option<string>,
                        date: string, stamp: string): (r: seq<Client>)
    ensures ClientIndex(cs, phone).Some? ==>
              var i := ClientIndex(cs, phone).value;
              && |r| == |cs|
              && r[i] == cs[i].(totalBookings := cs[i].totalBookings + 1, lastVisit := Some(date))
              && forall j :: 0 <= j < |cs| && j != i ==> r[j] == cs[j]
    ensures ClientIndex(cs, phone).None? ==> r == cs + [FirstVisit(userId, name, phone, date, stamp)]
  {
    match ClientIndex(cs, phone)
    case Some(i) => cs[i := cs[i].(totalBookings := cs[i].totalBookings + 1, lastVisit := Some(date))]
    case None => cs + [FirstVisit(userId, name, phone, date, stamp)]
  }

  /** `createBooking`. Fails without writing when a required field is falsy,
      or when the service is not one of that business's own. Otherwise the
      booking is confirmed, carries the service's current name, and is
      appended to the business's bookings; then the client list is
      upserted. */
  function CreateBooking(s: Store, req: BookingRequest, stamp: string): (out: (Reply<Booking>, Store))
    ensures out.0 == Failure(MissingBookingFields) <==> MissingFields(req)
    ensures out.0.Failure? ==> out.1 == s
    ensures out.0.Failure? ==> out.0.error == MissingBookingFields || out.0.error == ServiceNotFound
    ensures !MissingFields(req) ==>
              (out.0 == Failure(ServiceNotFound) <==>
                 forall k :: 0 <= k < |Partition(s.services, req.userId.value)| ==>
                   Partition(s.services, req.userId.value)[k].id != req.serviceId.value)
    ensures out.0.Success? ==>
              var b := out.0.data;
              var uid := req.userId.value;
              var ss := Partition(s.services, uid);
              && !MissingFields(req)
              && b.id == "booking_" + stamp
              && b.status == Confirmed
              && b.userId == uid
              && b.clientName == req.clientName.value
              && b.clientPhone == req.clientPhone.GetOr("")
              && b.serviceId == req.serviceId.value
              && b.date == req.date.value
              && b.time == req.time.value
              && (exists k :: 0 <= k < |ss| && ss[k].id == b.serviceId && b.serviceName == ss[k].name
                              && forall j :: 0 <= j < k ==> ss[j].id != b.serviceId)
              && out.1 == s.(bookings := s.bookings[uid := Partition(s.bookings, uid) + [b]],
                             clients := s.clients[uid := UpsertClient(Partition(s.clients, uid), uid,
                                                                      b.clientName, req.clientPhone, b.date, stamp)])
  {
    if MissingFields(req) then (Failure(MissingBookingFields), s)
    else
      var uid := req.userId.value;
      var ss := Partition(s.services, uid);
      match FindIndex(ss, (x: Service) => x.id == req.serviceId.value)
      case None => (Failure(ServiceNotFound), s)
      case Some(k) =>
        var b := Booking("booking_" + stamp, req.clientName.value, req.clientPhone.GetOr(""),
                         req.serviceId.value, ss[k].name, req.date.value, req.time.value, Confirmed, uid);
        var cs := UpsertClient(Partition(s.clients, uid), uid, b.clientName, req.clientPhone, b.date, stamp);
        (Success(b), s.(bookings := s.bookings[uid := Partition(s.bookings, uid) + [b]],
                        clients := s.clients[uid := cs]))
  }

  /** The booking list after `cancelBooking`: every booking with the id is
      marked cancelled, whatever its status was; nothing else moves. */
  function CancelIn(bs: seq<Booking>, bookingId: string): (r: seq<Booking>)
    ensures |r| == |bs|
    ensures forall i :: 0 <= i < |bs| && bs[i].id == bookingId ==> r[i] == bs[i].(status := Cancelled)
    ensures forall i :: 0 <= i < |bs| && bs[i].id != bookingId ==> r[i] == bs[i]
  {
    seq(|bs|, i requires 0 <= i < |bs| => if bs[i].id == bookingId then bs[i].(status := Cancelled) else bs[i])
  }

  /** `cancelBooking`: always reports success, also when no booking has
      the id. */
  function CancelBooking(s: Store, userId: UserId, bookingId: string): (out: (Reply<bool>, Store))
    ensures out.0 == Success(true)
    ensures out.1 == s.(bookings := s.bookings[userId := CancelIn(Partition(s.bookings, userId), bookingId)])
  {
    (Success(true), s.(bookings := s.bookings[userId := CancelIn(Partition(s.bookings, userId), bookingId)]))
  }

  // ------------------------------------------------------- Slots and URL

  /** `getAvailableSlots`: the 22-entry half-hour grid. `draw(k)` stands for
      the k-th random availability flag; the business and the date are not
      consulted. */
  method GetAvailableSlots(userId: UserId, date: string, draw: nat -> bool) returns (reply: Reply<seq<TimeSlot>>)
    ensures reply.Success? && |reply.data| == 22
    ensures forall k :: 0 <= k < |reply.data| ==>
              reply.data[k].time == Slots.SlotTime(k) && reply.data[k].available == draw(k)
    ensures forall i, j :: 0 <= i < j < |reply.data| ==> Strings.LexLess(reply.data[i].time, reply.data[j].time)
    ensures reply.data[0].time == "09:00" && reply.data[21].time == "19:30"
  {
    var times := Slots.HalfHourGrid();
    var slots := seq(|times|, k requires 0 <= k < |times| => TimeSlot(times[k], draw(k)));
    return Success(slots);
  }

  /** `getPublicUrl`: "/booking/" followed by the business id, for a
      registered business only. */
  function GetPublicUrl(s: Store, userId: UserId): (r: Reply<string>)
    ensures r.Success? <==> exists i :: 0 <= i < |s.users| && s.users[i].id == userId
    ensures r.Failure? ==> r.error == UserNotFound
    ensures r.Success? ==> r.data == "/booking/" + userId
  {
    match FindIndex(s.users, (u: User) => u.id == userId)
    case None => Failure(UserNotFound)
    case Some(_) => Success("/booking/" + userId)
  }
}
