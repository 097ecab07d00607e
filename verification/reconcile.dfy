/** Two views of a business's clients: the list `createBooking` keeps up to
    date one booking at a time (src/services/api.ts), and the list the
    clients page rebuilds from the bookings (src/pages/ClientList.tsx). They
    agree as long as every booking has a phone and bookings are made in date
    order; a booking for an earlier date makes them disagree on the last
    visit. */
module Reconcile {
  import opened Common
  import opened Strings
  import opened Types
  import opened Api
  import ClientList

  /** Ids play no part in the comparison. */
  function NoId(phone: string): string {
    ""
  }

  function Rebuilt(bs: seq<Booking>, userId: UserId): map<string, Client> {
    ClientList.Aggregate(bs, userId, NoId)
  }

  /** Two client records for the same person: same name, phone, count and
      last visit. */
  predicate SameClient(c: Client, d: Client) {
    c.name == d.name && c.phone == d.phone && c.totalBookings == d.totalBookings && c.lastVisit == d.lastVisit
  }

  /** The stored clients `cs` are, up to order and ids, the clients of the
      table `m`: one stored client per phone of the table. */
  predicate AgreesWith(cs: seq<Client>, m: map<string, Client>) {
    && (forall i, j :: 0 <= i < j < |cs| ==> cs[i].phone != cs[j].phone)
    && (forall i :: 0 <= i < |cs| ==> cs[i].phone in m && SameClient(cs[i], m[cs[i].phone]))
    && (forall p :: p in m ==> exists i :: 0 <= i < |cs| && cs[i].phone == p)
  }

  /** The stored clients are the ones the page rebuilds from `bs`. */
  predicate Agrees(cs: seq<Client>, bs: seq<Booking>, userId: UserId) {
    AgreesWith(cs, Rebuilt(bs, userId))
  }

  /** No existing booking is later than `date`. */
  predicate NotBefore(date: string, bs: seq<Booking>) {
    forall i :: 0 <= i < |bs| ==> !LexLess(date, bs[i].date)
  }

  lemma RebuiltSnoc(bs: seq<Booking>, b: Booking, userId: UserId)
    ensures Rebuilt(bs + [b], userId) == ClientList.Tally(Rebuilt(bs, userId), b, userId, NoId)
  {
    var bs' := bs + [b];
    assert bs'[..|bs'| - 1] == bs && bs'[|bs'| - 1] == b;
  }

  /** The page's update of a known phone, for a date no earlier than its
      last visit: one more booking, and that date as last visit. */
  lemma TallyKnown(m: map<string, Client>, b: Booking, userId: UserId)
    requires b.clientPhone in m
    requires m[b.clientPhone].lastVisit.Some? && !LexLess(b.date, m[b.clientPhone].lastVisit.value)
    ensures ClientList.Tally(m, b, userId, NoId)[b.clientPhone]
              == m[b.clientPhone].(totalBookings := m[b.clientPhone].totalBookings + 1, lastVisit := Some(b.date))
  {
    LexTotal(m[b.clientPhone].lastVisit.value, b.date);
  }

  /** Agreement survives replacing one stored client and its table entry by
      two records that again match. */
  lemma AgreesAfterEdit(cs: seq<Client>, cs': seq<Client>, m: map<string, Client>, m': map<string, Client>, i: nat)
    requires AgreesWith(cs, m)
    requires i < |cs| == |cs'|
    requires forall j :: 0 <= j < |cs| && j != i ==> cs'[j] == cs[j]
    requires cs'[i].phone == cs[i].phone
    requires m'.Keys == m.Keys
    requires forall q :: q in m && q != cs[i].phone ==> m'[q] == m[q]
    requires SameClient(cs'[i], m'[cs[i].phone])
    ensures AgreesWith(cs', m')
  {
    forall j | 0 <= j < |cs'| ensures cs'[j].phone == cs[j].phone {
    }
    forall j | 0 <= j < |cs'| ensures cs'[j].phone in m' && SameClient(cs'[j], m'[cs'[j].phone]) {
      if j != i {
        assert cs'[j] == cs[j] && cs[j].phone != cs[i].phone;
      }
    }
    forall q | q in m' ensures exists j :: 0 <= j < |cs'| && cs'[j].phone == q {
      var j :| 0 <= j < |cs| && cs[j].phone == q;
      assert cs'[j].phone == q;
    }
  }

  /** Agreement survives appending a client for a new phone on one side and
      a matching entry on the other. */
  lemma AgreesAfterAppend(cs: seq<Client>, m: map<string, Client>, c: Client, e: Client)
    requires AgreesWith(cs, m)
    requires c.phone !in m
    requires SameClient(c, e)
    ensures AgreesWith(cs + [c], m[c.phone := e])
  {
    var cs' := cs + [c];
    var m' := m[c.phone := e];
    forall j | 0 <= j < |cs'| ensures cs'[j].phone in m' && SameClient(cs'[j], m'[cs'[j].phone]) {
      if j < |cs| {
        assert cs'[j] == cs[j];
      }
    }
    forall q | q in m' ensures exists j :: 0 <= j < |cs'| && cs'[j].phone == q {
      if q != c.phone {
        var j :| 0 <= j < |cs| && cs[j].phone == q;
        assert cs'[j].phone == q;
      } else {
        assert cs'[|cs|].phone == q;
      }
    }
  }

  /** A known phone: both sides count one more booking, and both move the
      last visit to the new date, since it is no earlier than the old one. */
  lemma UpsertKnownAgrees(cs: seq<Client>, m: map<string, Client>, userId: UserId, b: Booking, stamp: string)
    requires AgreesWith(cs, m)
    requires b.clientPhone in m
    requires m[b.clientPhone].lastVisit.Some? && !LexLess(b.date, m[b.clientPhone].lastVisit.value)
    ensures AgreesWith(UpsertClient(cs, userId, b.clientName, Some(b.clientPhone), b.date, stamp),
                       ClientList.Tally(m, b, userId, NoId))
  {
    var p := b.clientPhone;
    var m' := ClientList.Tally(m, b, userId, NoId);
    var cs' := UpsertClient(cs, userId, b.clientName, Some(p), b.date, stamp);
    var j0 :| 0 <= j0 < |cs| && cs[j0].phone == p;
    assert ClientIndex(cs, Some(p)).Some?;
    var i := ClientIndex(cs, Some(p)).value;
    assert cs[i].phone == p && SameClient(cs[i], m[p]);
    TallyKnown(m, b, userId);
    AgreesAfterEdit(cs, cs', m, m', i);
  }

  /** A new phone: both sides add one client with one booking. */
  lemma UpsertNewAgrees(cs: seq<Client>, m: map<string, Client>, userId: UserId, b: Booking, stamp: string)
    requires AgreesWith(cs, m)
    requires b.clientPhone !in m
    ensures AgreesWith(UpsertClient(cs, userId, b.clientName, Some(b.clientPhone), b.date, stamp),
                       ClientList.Tally(m, b, userId, NoId))
  {
    var p := b.clientPhone;
    var first := FirstVisit(userId, b.clientName, Some(p), b.date, stamp);
    assert ClientIndex(cs, Some(p)).None?;
    AgreesAfterAppend(cs, m, first, ClientList.Fresh(b, userId, NoId));
  }

  /** One booking with a phone and a date no earlier than any before keeps
      the two views in agreement. */
  lemma UpsertAgrees(cs: seq<Client>, bs: seq<Booking>, userId: UserId, b: Booking, stamp: string)
    requires Agrees(cs, bs, userId)
    requires NotBefore(b.date, bs)
    ensures Agrees(UpsertClient(cs, userId, b.clientName, Some(b.clientPhone), b.date, stamp), bs + [b], userId)
  {
    var m := Rebuilt(bs, userId);
    RebuiltSnoc(bs, b, userId);
    if b.clientPhone in m {
      ClientList.AggregateMeaning(bs, userId, NoId);
      var k :| 0 <= k < |bs| && bs[k].clientPhone == b.clientPhone && bs[k].date == m[b.clientPhone].lastVisit.value;
      UpsertKnownAgrees(cs, m, userId, b, stamp);
    } else {
      UpsertNewAgrees(cs, m, userId, b, stamp);
    }
  }

  /** The same at the level of the API: a successful `createBooking` with a
      phone, dated no earlier than the business's existing bookings, keeps
      the stored clients equal to the ones the page rebuilds. */
  lemma CreateBookingAgrees(s: Store, req: BookingRequest, stamp: string)
    requires CreateBooking(s, req, stamp).0.Success?
    requires req.clientPhone.Some?
    requires Agrees(Partition(s.clients, req.userId.value), Partition(s.bookings, req.userId.value), req.userId.value)
    requires NotBefore(req.date.value, Partition(s.bookings, req.userId.value))
    ensures var s' := CreateBooking(s, req, stamp).1;
            var uid := req.userId.value;
            Agrees(Partition(s'.clients, uid), Partition(s'.bookings, uid), uid)
  {
    var b := CreateBooking(s, req, stamp).0.data;
    UpsertAgrees(Partition(s.clients, req.userId.value), Partition(s.bookings, req.userId.value),
                 req.userId.value, b, stamp);
  }

  /** `createBooking` called for each request in turn, with its own stamp. */
  function Replay(s: Store, reqs: seq<BookingRequest>, stamps: seq<string>): Store
    requires |stamps| == |reqs|
    decreases |reqs|
  {
    if |reqs| == 0 then s
    else
      var n := |reqs| - 1;
      CreateBooking(Replay(s, reqs[..n], stamps[..n]), reqs[n], stamps[n]).1
  }

  /** Requests of one business, each with a phone and a date, in date
      order. */
  predicate InDateOrder(reqs: seq<BookingRequest>, userId: UserId) {
    && (forall i :: 0 <= i < |reqs| ==>
          reqs[i].userId == Some(userId) && reqs[i].clientPhone.Some? && reqs[i].date.Some?)
    && (forall i, j :: 0 <= i < j < |reqs| ==> !LexLess(reqs[j].date.value, reqs[i].date.value))
  }

  /** Every booking a replay stores for the business carries the date of
      one of the requests. */
  lemma {:induction false} ReplayDates(s: Store, reqs: seq<BookingRequest>, stamps: seq<string>, userId: UserId)
    requires |stamps| == |reqs|
    requires Partition(s.bookings, userId) == []
    requires forall i :: 0 <= i < |reqs| ==> reqs[i].userId == Some(userId)
    ensures forall k :: 0 <= k < |Partition(Replay(s, reqs, stamps).bookings, userId)| ==>
              exists i :: 0 <= i < |reqs| && reqs[i].date == Some(Partition(Replay(s, reqs, stamps).bookings, userId)[k].date)
    decreases |reqs|
  {
    if |reqs| > 0 {
      var n := |reqs| - 1;
      var prev := Replay(s, reqs[..n], stamps[..n]);
      ReplayDates(s, reqs[..n], stamps[..n], userId);
      var bs := Partition(prev.bookings, userId);
      assert forall k :: 0 <= k < |bs| ==> exists i :: 0 <= i < |reqs[..n]| && reqs[..n][i].date == Some(bs[k].date);
      var out := CreateBooking(prev, reqs[n], stamps[n]);
      assert Replay(s, reqs, stamps) == out.1;
      var bs' := Partition(out.1.bookings, userId);
      if out.0.Success? {
        assert bs' == bs + [out.0.data];
      } else {
        assert bs' == bs;
      }
      forall k | 0 <= k < |bs'| ensures exists i :: 0 <= i < |reqs| && reqs[i].date == Some(bs'[k].date) {
        if k < |bs| {
          assert bs'[k] == bs[k];
          var i :| 0 <= i < n && reqs[..n][i].date == Some(bs[k].date);
          assert reqs[..n][i] == reqs[i];
        } else {
          assert reqs[n].date == Some(bs'[k].date);
        }
      }
      assert Partition(Replay(s, reqs, stamps).bookings, userId) == bs';
    } else {
      assert Replay(s, reqs, stamps) == s;
    }
  }

  /** In a date-ordered run, the last request is dated no earlier than any
      booking the requests before it stored. */
  lemma LastIsNotBefore(s: Store, reqs: seq<BookingRequest>, stamps: seq<string>, userId: UserId)
    requires |stamps| == |reqs| > 0
    requires Partition(s.bookings, userId) == []
    requires InDateOrder(reqs, userId)
    ensures NotBefore(reqs[|reqs| - 1].date.value,
                      Partition(Replay(s, reqs[..|reqs| - 1], stamps[..|reqs| - 1]).bookings, userId))
  {
    var n := |reqs| - 1;
    ReplayDates(s, reqs[..n], stamps[..n], userId);
    var bs := Partition(Replay(s, reqs[..n], stamps[..n]).bookings, userId);
    forall k | 0 <= k < |bs| ensures !LexLess(reqs[n].date.value, bs[k].date) {
      var i :| 0 <= i < |reqs[..n]| && reqs[..n][i].date == Some(bs[k].date);
      assert reqs[..n][i] == reqs[i];
    }
  }

  /** Starting from a business with no bookings and no clients, any run of
      phone-carrying bookings made in date order ends with the stored clients
      equal to the ones the page rebuilds, whichever requests fail. */
  lemma {:induction false} ReplayAgrees(s: Store, reqs: seq<BookingRequest>, stamps: seq<string>, userId: UserId)
    requires |stamps| == |reqs|
    requires Partition(s.bookings, userId) == [] && Partition(s.clients, userId) == []
    requires InDateOrder(reqs, userId)
    ensures var s' := Replay(s, reqs, stamps);
            Agrees(Partition(s'.clients, userId), Partition(s'.bookings, userId), userId)
    decreases |reqs|
  {
    if |reqs| == 0 {
      assert Rebuilt([], userId) == map[];
    } else {
      var n := |reqs| - 1;
      var prev := Replay(s, reqs[..n], stamps[..n]);
      assert InDateOrder(reqs[..n], userId);
      ReplayAgrees(s, reqs[..n], stamps[..n], userId);
      var out := CreateBooking(prev, reqs[n], stamps[n]);
      assert Replay(s, reqs, stamps) == out.1;
      if out.0.Success? {
        LastIsNotBefore(s, reqs, stamps, userId);
        CreateBookingAgrees(prev, reqs[n], stamps[n]);
      }
    }
  }

  /** Two bookings of one phone, the second for an earlier date: the page
      keeps the first booking's date as the last visit. */
  lemma PairRebuilt(b1: Booking, b2: Booking, userId: UserId)
    requires b1.clientPhone == b2.clientPhone
    requires LexLess(b2.date, b1.date)
    ensures b1.clientPhone in Rebuilt([b1, b2], userId)
    ensures Rebuilt([b1, b2], userId)[b1.clientPhone].lastVisit == Some(b1.date)
  {
    assert [b1, b2][..1] == [b1];
    assert [b1][..0] == [];
    assert ClientList.Aggregate([], userId, NoId) == map[];
    assert ClientList.Aggregate([b1], userId, NoId) == ClientList.Tally(map[], b1, userId, NoId);
    assert ClientList.Aggregate([b1, b2], userId, NoId)
        == ClientList.Tally(ClientList.Aggregate([b1], userId, NoId), b2, userId, NoId);
    LexAsymmetric(b2.date, b1.date);
  }

  /** The same two bookings made through the API are both stored, in
      order. */
  lemma StoredPairBookings(s: Store, r1: BookingRequest, r2: BookingRequest, stamp1: string, stamp2: string)
    requires CreateBooking(s, r1, stamp1).0.Success?
    requires CreateBooking(CreateBooking(s, r1, stamp1).1, r2, stamp2).0.Success?
    requires r1.userId == r2.userId
    requires Partition(s.bookings, r1.userId.value) == []
    requires r1.clientPhone.Some? && r2.clientPhone == r1.clientPhone
    ensures var s1 := CreateBooking(s, r1, stamp1);
            var s2 := CreateBooking(s1.1, r2, stamp2);
            && Partition(s2.1.bookings, r1.userId.value) == [s1.0.data, s2.0.data]
            && s1.0.data.clientPhone == s2.0.data.clientPhone == r1.clientPhone.value
            && s2.0.data.date == r2.date.value && s1.0.data.date == r1.date.value
  {
  }

  /** ... and one client is stored for their phone, carrying the second
      booking's date. */
  lemma StoredPairClients(s: Store, r1: BookingRequest, r2: BookingRequest, stamp1: string, stamp2: string)
    requires CreateBooking(s, r1, stamp1).0.Success?
    requires CreateBooking(CreateBooking(s, r1, stamp1).1, r2, stamp2).0.Success?
    requires r1.userId == r2.userId
    requires Partition(s.clients, r1.userId.value) == []
    requires r1.clientPhone.Some? && r2.clientPhone == r1.clientPhone
    ensures var s2 := CreateBooking(CreateBooking(s, r1, stamp1).1, r2, stamp2);
            var uid := r1.userId.value;
            && |Partition(s2.1.clients, uid)| == 1
            && Partition(s2.1.clients, uid)[0].phone == r1.clientPhone.value
            && Partition(s2.1.clients, uid)[0].lastVisit == Some(r2.date.value)
  {
    var uid := r1.userId.value;
    var s1 := CreateBooking(s, r1, stamp1);
    var b1 := s1.0.data;
    var cs1 := Partition(s1.1.clients, uid);
    assert cs1 == [FirstVisit(uid, b1.clientName, r1.clientPhone, b1.date, stamp1)];
    assert ClientIndex(cs1, r2.clientPhone) == Some(0);
  }

  /** Out of date order the views part: when a client with a phone books a
      date and then an earlier one, the stored last visit is the later write
      while the rebuilt one is the later date. */
  lemma EarlierBookingBreaksAgreement(s: Store, r1: BookingRequest, r2: BookingRequest, stamp1: string, stamp2: string)
    requires CreateBooking(s, r1, stamp1).0.Success?
    requires CreateBooking(CreateBooking(s, r1, stamp1).1, r2, stamp2).0.Success?
    requires r1.userId == r2.userId
    requires Partition(s.bookings, r1.userId.value) == [] && Partition(s.clients, r1.userId.value) == []
    requires r1.clientPhone.Some? && r2.clientPhone == r1.clientPhone
    requires LexLess(r2.date.value, r1.date.value)
    ensures var s2 := CreateBooking(CreateBooking(s, r1, stamp1).1, r2, stamp2).1;
            var uid := r1.userId.value;
            !Agrees(Partition(s2.clients, uid), Partition(s2.bookings, uid), uid)
  {
    var uid := r1.userId.value;
    var s1 := CreateBooking(s, r1, stamp1);
    var s2 := CreateBooking(s1.1, r2, stamp2);
    StoredPairBookings(s, r1, r2, stamp1, stamp2);
    StoredPairClients(s, r1, r2, stamp1, stamp2);
    PairRebuilt(s1.0.data, s2.0.data, uid);
    LexIrreflexive(r1.date.value);
  }
}
