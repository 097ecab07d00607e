/** Properties of the mock backend that relate several calls: round trips,
    idempotence, tenant isolation, and the edge cases of the source's
    equality tests against absent fields. */
module ApiProperties {
  import opened Common
  import opened Types
  import opened Api

  // ---------------------------------------------------------------- Auth

  /** No two stored users share an email. */
  predicate UniqueEmails(users: seq<User>) {
    forall i, j :: 0 <= i < j < |users| ==> users[i].email != users[j].email
  }

  /** Registering with an email keeps emails unique. */
  lemma RegisterKeepsEmailsUnique(s: Store, data: Registration, stamp: string)
    requires UniqueEmails(s.users)
    requires data.email.Some?
    ensures UniqueEmails(Register(s, data, stamp).1.users)
  {
    var out := Register(s, data, stamp);
    if out.0.Success? {
      var us := out.1.users;
      assert us == s.users + [out.0.data];
      forall i, j | 0 <= i < j < |us| ensures us[i].email != us[j].email {
        if j == |s.users| {
          assert us[i] == s.users[i];
        }
      }
    }
  }

  /** Registering without an email never collides: a second user with the
      empty email is stored beside an existing one. */
  lemma RegisterWithoutEmailDuplicates(s: Store, data: Registration, stamp: string, i: nat)
    requires i < |s.users| && s.users[i].email == ""
    requires data.email.None?
    ensures Register(s, data, stamp).0.Success?
    ensures !UniqueEmails(Register(s, data, stamp).1.users)
  {
    var us := Register(s, data, stamp).1.users;
    assert us[i].email == us[|s.users|].email;
  }

  /** A business that has just registered with a fresh email logs in as
      itself. */
  lemma RegisterThenLogin(s: Store, data: Registration, stamp: string)
    requires data.email.Some?
    requires Register(s, data, stamp).0.Success?
    ensures Login(Register(s, data, stamp).1, data.email.value).0 == Register(s, data, stamp).0
  {
    var out := Register(s, data, stamp);
    var us := out.1.users;
    var login := Login(out.1, data.email.value);
    assert us[|s.users|] == out.0.data;
    assert login.0.Success?;
    var i :| 0 <= i < |us| && us[i] == login.0.data && login.0.data.email == data.email.value
             && forall j :: 0 <= j < i ==> us[j].email != data.email.value;
  }

  /** A registered business has a public URL. */
  lemma RegisterThenPublicUrl(s: Store, data: Registration, stamp: string)
    requires Register(s, data, stamp).0.Success?
    ensures GetPublicUrl(Register(s, data, stamp).1, "user_" + stamp) == Success("/booking/user_" + stamp)
  {
    var us := Register(s, data, stamp).1.users;
    assert us[|s.users|].id == "user_" + stamp;
    assert "/booking/" + ("user_" + stamp) == "/booking/user_" + stamp;
  }

  /** Connecting the calendar twice stores the same as connecting it once. */
  lemma ConnectGoogleCalendarIdempotent(s: Store)
    ensures ConnectGoogleCalendar(ConnectGoogleCalendar(s).1).1 == ConnectGoogleCalendar(s).1
  {
    var once := ConnectGoogleCalendar(s);
    if s.currentUser.Some? {
      var twice := ConnectGoogleCalendar(once.1);
      var u := once.0.data;
      assert twice.0.data == u;
      assert twice.1.users == once.1.users;
    }
  }

  /** Connecting Twilio with the same token twice stores the same as once. */
  lemma ConnectTwilioIdempotent(s: Store, token: Option<string>)
    ensures ConnectTwilio(ConnectTwilio(s, token).1, token).1 == ConnectTwilio(s, token).1
  {
    var once := ConnectTwilio(s, token);
    if ValidTwilioToken(token) && s.currentUser.Some? {
      var twice := ConnectTwilio(once.1, token);
      assert twice.0.data == once.0.data;
      assert twice.1.users == once.1.users;
    }
  }

  /** The public URL depends on the business id only: renaming the business
      does not change it. */
  lemma PublicUrlIgnoresBusinessName(s: Store, i: nat, name: string, userId: UserId)
    requires i < |s.users|
    ensures GetPublicUrl(s.(users := s.users[i := s.users[i].(businessName := name)]), userId)
            == GetPublicUrl(s, userId)
  {
    var s' := s.(users := s.users[i := s.users[i].(businessName := name)]);
    if GetPublicUrl(s, userId).Success? {
      var j :| 0 <= j < |s.users| && s.users[j].id == userId;
      assert s'.users[j].id == userId;
    }
    if GetPublicUrl(s', userId).Success? {
      var j :| 0 <= j < |s'.users| && s'.users[j].id == userId;
      assert s.users[j].id == userId;
    }
  }

  // ------------------------------------------------------------ Services

  /** Creating a service with an id no other service has, then deleting
      that id, restores the business's list. */
  lemma CreateThenDeleteService(s: Store, userId: UserId, d: ServiceDraft, stamp: string)
    requires Falsy(d.id)
    requires forall i :: 0 <= i < |Partition(s.services, userId)| ==>
               Partition(s.services, userId)[i].id != "service_" + stamp
    ensures Partition(DeleteService(SaveService(s, userId, d, stamp).1, userId, "service_" + stamp).1.services, userId)
            == Partition(s.services, userId)
  {
    var ss := Partition(s.services, userId);
    var keep := (x: Service) => x.id != "service_" + stamp;
    FilterAppend(ss, [NewService(d, stamp)], keep);
    FilterAll(ss, keep);
  }

  /** Saving a stored service back unchanged leaves the list as it was,
      when no other service shares its id. */
  lemma ResaveIsNoOp(s: Store, userId: UserId, i: nat, stamp: string)
    requires i < |Partition(s.services, userId)|
    requires Partition(s.services, userId)[i].id != ""
    requires forall j :: 0 <= j < |Partition(s.services, userId)| && j != i ==>
               Partition(s.services, userId)[j].id != Partition(s.services, userId)[i].id
    ensures Partition(SaveService(s, userId, AsDraft(Partition(s.services, userId)[i]), stamp).1.services, userId)
            == Partition(s.services, userId)
  {
    var ss := Partition(s.services, userId);
    var ss' := Partition(SaveService(s, userId, AsDraft(ss[i]), stamp).1.services, userId);
    forall j | 0 <= j < |ss| ensures ss'[j] == ss[j] {
      if ss[j].id == ss[i].id {
        assert j == i;
      }
    }
  }

  /** Deleting a service twice is deleting it once. */
  lemma DeleteServiceIdempotent(s: Store, userId: UserId, serviceId: string)
    ensures DeleteService(DeleteService(s, userId, serviceId).1, userId, serviceId).1
            == DeleteService(s, userId, serviceId).1
  {
    var once := DeleteService(s, userId, serviceId).1;
    FilterAll(Partition(once.services, userId), (x: Service) => x.id != serviceId);
  }

  // ------------------------------------------------------------ Bookings

  /** A booking call touches only its own business: every other business
      keeps its services, bookings and clients, whether the call succeeded
      or not. */
  lemma CreateBookingIsolatesTenants(s: Store, req: BookingRequest, stamp: string, other: UserId)
    requires req.userId != Some(other)
    ensures Partition(CreateBooking(s, req, stamp).1.services, other) == Partition(s.services, other)
    ensures Partition(CreateBooking(s, req, stamp).1.bookings, other) == Partition(s.bookings, other)
    ensures Partition(CreateBooking(s, req, stamp).1.clients, other) == Partition(s.clients, other)
  {
  }

  /** The plain case: a haircut booked for a new phone is confirmed under the
      service's name, and the phone's first client record is created. */
  lemma HaircutBooking(s: Store, stamp: string)
    requires Partition(s.services, "u1") == [Service("s1", "Haircut", 30, 20.0, false)]
    requires Partition(s.clients, "u1") == []
    ensures var req := BookingRequest(Some("u1"), Some("Ana"), Some("600111222"), Some("s1"),
                                      Some("2025-05-15"), Some("10:30"));
            var out := CreateBooking(s, req, stamp);
            && out.0.Success?
            && out.0.data.status == Confirmed && out.0.data.serviceName == "Haircut"
            && Partition(out.1.clients, "u1") ==
                 [Client("client_" + stamp, "Ana", "600111222", None, Some("2025-05-15"), 1, "u1")]
  {
    var req := BookingRequest(Some("u1"), Some("Ana"), Some("600111222"), Some("s1"),
                              Some("2025-05-15"), Some("10:30"));
    var out := CreateBooking(s, req, stamp);
    assert !MissingFields(req);
    assert Partition(s.services, "u1")[0].id == "s1";
  }

  /** A booking keeps the service name it was created with: renaming the
      service afterwards leaves every booking as it was. */
  lemma BookingNameIsSnapshot(s: Store, req: BookingRequest, stamp: string, d: ServiceDraft, stamp2: string)
    requires CreateBooking(s, req, stamp).0.Success?
    ensures var after := CreateBooking(s, req, stamp).1;
            GetBookings(SaveService(after, req.userId.value, d, stamp2).1, req.userId.value)
            == GetBookings(after, req.userId.value)
    ensures var after := CreateBooking(s, req, stamp).1;
            var b := CreateBooking(s, req, stamp).0.data;
            var bs := GetBookings(SaveService(after, req.userId.value, d, stamp2).1, req.userId.value).data;
            |bs| > 0 && bs[|bs| - 1] == b
  {
  }

  /** Without a phone, every booking adds a new client, even when a client
      with the empty phone is already stored: the lookup compares stored
      phones with an absent value, which never matches, while the new
      client is stored with the phone "". */
  lemma AbsentPhoneAlwaysAddsClient(s: Store, req: BookingRequest, stamp: string, i: nat)
    requires req.clientPhone.None?
    requires CreateBooking(s, req, stamp).0.Success?
    requires i < |Partition(s.clients, req.userId.value)|
    requires Partition(s.clients, req.userId.value)[i].phone == ""
    ensures var cs := Partition(s.clients, req.userId.value);
            var cs' := Partition(CreateBooking(s, req, stamp).1.clients, req.userId.value);
            && |cs'| == |cs| + 1
            && cs'[i].phone == "" && cs'[|cs|].phone == ""
  {
  }

  /** The client's last visit is simply the date of the newest booking, so
      booking an earlier date makes it go back in time. */
  lemma LastVisitIsLastWrite(s: Store, req: BookingRequest, stamp: string)
    requires CreateBooking(s, req, stamp).0.Success?
    requires ClientIndex(Partition(s.clients, req.userId.value), req.clientPhone).Some?
    ensures var cs := Partition(s.clients, req.userId.value);
            var i := ClientIndex(cs, req.clientPhone).value;
            var cs' := Partition(CreateBooking(s, req, stamp).1.clients, req.userId.value);
            && cs'[i].lastVisit == req.date
            && cs'[i].totalBookings == cs[i].totalBookings + 1
            && cs'[i].name == cs[i].name
  {
  }

  /** Cancelling twice is cancelling once. */
  lemma CancelBookingIdempotent(s: Store, userId: UserId, bookingId: string)
    ensures CancelBooking(CancelBooking(s, userId, bookingId).1, userId, bookingId).1
            == CancelBooking(s, userId, bookingId).1
  {
    var once := CancelBooking(s, userId, bookingId).1;
    var bs := Partition(once.bookings, userId);
    assert CancelIn(bs, bookingId) == bs;
  }

  /** Cancelling an id no booking has leaves the list as it was, and is still
      reported as a success. */
  lemma CancelUnknownIdChangesNothing(s: Store, userId: UserId, bookingId: string)
    requires forall i :: 0 <= i < |Partition(s.bookings, userId)| ==> Partition(s.bookings, userId)[i].id != bookingId
    ensures CancelBooking(s, userId, bookingId).0 == Success(true)
    ensures Partition(CancelBooking(s, userId, bookingId).1.bookings, userId) == Partition(s.bookings, userId)
  {
    var bs := Partition(s.bookings, userId);
    assert CancelIn(bs, bookingId) == bs;
  }

  /** Cancellation is one-way and only touches status: a cancelled booking
      stays cancelled, and no booking changes any other field. */
  lemma CancelOnlyTouchesStatus(s: Store, userId: UserId, bookingId: string, i: nat)
    requires i < |Partition(s.bookings, userId)|
    ensures var b := Partition(s.bookings, userId)[i];
            var b' := Partition(CancelBooking(s, userId, bookingId).1.bookings, userId)[i];
            && b' == b.(status := b'.status)
            && (b.status == Cancelled ==> b'.status == Cancelled)
            && (b'.status != b.status ==> b.id == bookingId && b'.status == Cancelled)
  {
  }
}
