/** The clients page of src/pages/ClientList.tsx. It does not read the
    stored client records: it rebuilds one client per distinct phone number
    from the business's bookings, filters them by a search term, and opens
    a WhatsApp chat with a phone number reduced to its digits. The id each
    rebuilt client gets (clock and random number) comes from `mint`. */
module ClientList {
  import opened Common
  import opened Strings
  import opened Types

  // --------------------------------------------------------- Aggregation

  /** The client a phone's first booking creates. */
  function Fresh(b: Booking, userId: UserId, mint: string -> string): Client {
    Client(mint(b.clientPhone), b.clientName, b.clientPhone, None, Some(b.date), 1, userId)
  }

  /** One booking folded into the table: a new phone gets a new client; a
      known one counts one more booking and moves its last visit forward when
      the booking's date is a later string. */
  function Tally(m: map<string, Client>, b: Booking, userId: UserId, mint: string -> string): (r: map<string, Client>)
    ensures r.Keys == m.Keys + {b.clientPhone}
    ensures forall p :: p in m && p != b.clientPhone ==> r[p] == m[p]
  {
    if b.clientPhone !in m then m[b.clientPhone := Fresh(b, userId, mint)]
    else
      var c := m[b.clientPhone];
      var current := c.lastVisit.GetOr("");
      var c' := c.(totalBookings := c.totalBookings + 1);
      m[b.clientPhone := if LexLess(current, b.date) then c'.(lastVisit := Some(b.date)) else c']
  }

  /** The table the page's `forEach` builds, oldest booking first. */
  function Aggregate(bs: seq<Booking>, userId: UserId, mint: string -> string): map<string, Client>
    decreases |bs|
  {
    if |bs| == 0 then map[] else Tally(Aggregate(bs[..|bs| - 1], userId, mint), bs[|bs| - 1], userId, mint)
  }

  /** How many bookings have phone `p`, counted from the front. */
  function CountPhone(bs: seq<Booking>, p: string): nat
    decreases |bs|
  {
    if |bs| == 0 then 0 else (if bs[0].clientPhone == p then 1 else 0) + CountPhone(bs[1..], p)
  }

  /** Counting over a list with one more booking at the end. */
  lemma {:induction false} CountPhoneSnoc(bs: seq<Booking>, b: Booking, p: string)
    ensures CountPhone(bs + [b], p) == CountPhone(bs, p) + (if b.clientPhone == p then 1 else 0)
    decreases |bs|
  {
    if |bs| > 0 {
      assert (bs + [b])[1..] == bs[1..] + [b];
      CountPhoneSnoc(bs[1..], b, p);
    }
  }

  /** A phone no booking has is counted zero times. */
  lemma {:induction false} CountPhoneAbsent(bs: seq<Booking>, p: string)
    requires forall i :: 0 <= i < |bs| ==> bs[i].clientPhone != p
    ensures CountPhone(bs, p) == 0
    decreases |bs|
  {
    if |bs| > 0 {
      CountPhoneAbsent(bs[1..], p);
    }
  }

  /** The independent description of one rebuilt client, for phone `p` of
      the bookings `bs`, in three parts. First its identity and count: one
      booking counted per booking with that phone, whatever its status. */
  predicate CountsBookings(c: Client, bs: seq<Booking>, p: string, userId: UserId) {
    && c.phone == p
    && c.userId == userId
    && c.email.None?
    && c.totalBookings == CountPhone(bs, p)
  }

  /** Its id and name come from the first booking with that phone. */
  predicate NamedByFirst(c: Client, bs: seq<Booking>, p: string, mint: string -> string) {
    exists i :: 0 <= i < |bs| && bs[i].clientPhone == p
      && c.id == mint(p) && c.name == bs[i].clientName
      && forall j :: 0 <= j < i ==> bs[j].clientPhone != p
  }

  /** Its last visit is the latest date among that phone's bookings. */
  predicate LatestVisit(c: Client, bs: seq<Booking>, p: string) {
    && c.lastVisit.Some?
    && (exists i :: 0 <= i < |bs| && bs[i].clientPhone == p && bs[i].date == c.lastVisit.value)
    && (forall i :: 0 <= i < |bs| && bs[i].clientPhone == p ==> !LexLess(c.lastVisit.value, bs[i].date))
  }

  predicate Describes(c: Client, bs: seq<Booking>, p: string, userId: UserId, mint: string -> string) {
    CountsBookings(c, bs, p, userId) && NamedByFirst(c, bs, p, mint) && LatestVisit(c, bs, p)
  }

  /** The table has a client for exactly the phones that occur in the
      bookings. */
  lemma {:induction false} AggregateKeys(bs: seq<Booking>, userId: UserId, mint: string -> string)
    ensures forall p :: p in Aggregate(bs, userId, mint) <==> exists i :: 0 <= i < |bs| && bs[i].clientPhone == p
    decreases |bs|
  {
    if |bs| > 0 {
      var init := bs[..|bs| - 1];
      var last := bs[|bs| - 1];
      var m := Aggregate(init, userId, mint);
      var r := Aggregate(bs, userId, mint);
      AggregateKeys(init, userId, mint);
      assert r == Tally(m, last, userId, mint);
      forall p | p in r ensures exists i :: 0 <= i < |bs| && bs[i].clientPhone == p {
        if p == last.clientPhone {
          assert bs[|bs| - 1].clientPhone == p;
        } else {
          var i :| 0 <= i < |init| && init[i].clientPhone == p;
          assert bs[i] == init[i];
        }
      }
      forall i | 0 <= i < |bs| ensures bs[i].clientPhone in r {
        if i < |init| {
          assert bs[i] == init[i];
          assert init[i].clientPhone in m;
        } else {
          assert bs[i] == last;
        }
      }
    }
  }

  /** Each client in the table is the one the description above calls for. */
  lemma {:induction false} AggregateMeaning(bs: seq<Booking>, userId: UserId, mint: string -> string)
    ensures forall p :: p in Aggregate(bs, userId, mint) ==> Describes(Aggregate(bs, userId, mint)[p], bs, p, userId, mint)
    decreases |bs|
  {
    if |bs| > 0 {
      var init := bs[..|bs| - 1];
      var last := bs[|bs| - 1];
      var r := Aggregate(bs, userId, mint);
      AggregateMeaning(init, userId, mint);
      AggregateKeys(init, userId, mint);
      assert bs == init + [last];
      forall p | p in r ensures Describes(r[p], bs, p, userId, mint) {
        if p == last.clientPhone {
          TallyDescribes(init, last, userId, mint);
        } else {
          StillDescribes(init, last, p, userId, mint);
        }
      }
    }
  }

  /** A phone the newest booking does not have keeps its description. */
  lemma StillDescribes(init: seq<Booking>, last: Booking, p: string, userId: UserId, mint: string -> string)
    requires p != last.clientPhone
    requires p in Aggregate(init, userId, mint)
    requires Describes(Aggregate(init, userId, mint)[p], init, p, userId, mint)
    ensures Describes(Aggregate(init + [last], userId, mint)[p], init + [last], p, userId, mint)
  {
    var bs := init + [last];
    assert bs[..|bs| - 1] == init;
    var c := Aggregate(init, userId, mint)[p];
    assert Aggregate(bs, userId, mint)[p] == c;
    CountPhoneSnoc(init, last, p);
    StillNamed(init, last, c, p, mint);
    StillLatest(init, last, c, p);
  }

  /** A booking for another phone at the end changes no phone's first
      booking. */
  lemma StillNamed(init: seq<Booking>, last: Booking, c: Client, p: string, mint: string -> string)
    requires p != last.clientPhone
    requires NamedByFirst(c, init, p, mint)
    ensures NamedByFirst(c, init + [last], p, mint)
  {
    var bs := init + [last];
    var i :| 0 <= i < |init| && init[i].clientPhone == p && c.id == mint(p) && c.name == init[i].clientName
             && forall j :: 0 <= j < i ==> init[j].clientPhone != p;
    assert bs[i] == init[i];
    assert forall j :: 0 <= j < i ==> bs[j] == init[j];
  }

  /** A booking for another phone at the end changes no phone's dates. */
  lemma StillLatest(init: seq<Booking>, last: Booking, c: Client, p: string)
    requires p != last.clientPhone
    requires LatestVisit(c, init, p)
    ensures LatestVisit(c, init + [last], p)
  {
    var bs := init + [last];
    var k :| 0 <= k < |init| && init[k].clientPhone == p && init[k].date == c.lastVisit.value;
    assert bs[k] == init[k];
    forall j | 0 <= j < |bs| && bs[j].clientPhone == p ensures !LexLess(c.lastVisit.value, bs[j].date) {
      assert j < |init| && bs[j] == init[j];
    }
  }

  /** The client of the newest booking's phone is described correctly after
      the booking is folded in. */
  lemma TallyDescribes(init: seq<Booking>, last: Booking, userId: UserId, mint: string -> string)
    requires last.clientPhone in Aggregate(init, userId, mint) ==>
               Describes(Aggregate(init, userId, mint)[last.clientPhone], init, last.clientPhone, userId, mint)
    requires last.clientPhone !in Aggregate(init, userId, mint) ==>
               forall i :: 0 <= i < |init| ==> init[i].clientPhone != last.clientPhone
    ensures Describes(Aggregate(init + [last], userId, mint)[last.clientPhone], init + [last], last.clientPhone, userId, mint)
  {
    var bs := init + [last];
    var p := last.clientPhone;
    assert bs[..|bs| - 1] == init && bs[|bs| - 1] == last;
    var m := Aggregate(init, userId, mint);
    var c' := Aggregate(bs, userId, mint)[p];
    assert c' == Tally(m, last, userId, mint)[p];
    CountPhoneSnoc(init, last, p);
    if p !in m {
      CountPhoneAbsent(init, p);
      NewPhoneNamed(init, last, c', mint);
      NewPhoneLatest(init, last, c');
    } else {
      var c := m[p];
      KnownPhoneNamed(init, last, c, c', mint);
      KnownPhoneLatest(init, last, c, c');
    }
  }

  /** A phone first seen in the newest booking is named by it. */
  lemma NewPhoneNamed(init: seq<Booking>, last: Booking, c': Client, mint: string -> string)
    requires forall i :: 0 <= i < |init| ==> init[i].clientPhone != last.clientPhone
    requires c'.id == mint(last.clientPhone) && c'.name == last.clientName
    ensures NamedByFirst(c', init + [last], last.clientPhone, mint)
  {
    var bs := init + [last];
    assert bs[|init|] == last;
    assert forall j :: 0 <= j < |init| ==> bs[j] == init[j];
  }

  /** A phone first seen in the newest booking has its date as last visit. */
  lemma NewPhoneLatest(init: seq<Booking>, last: Booking, c': Client)
    requires forall i :: 0 <= i < |init| ==> init[i].clientPhone != last.clientPhone
    requires c'.lastVisit == Some(last.date)
    ensures LatestVisit(c', init + [last], last.clientPhone)
  {
    var bs := init + [last];
    assert bs[|init|] == last;
    forall j | 0 <= j < |bs| && bs[j].clientPhone == last.clientPhone ensures !LexLess(last.date, bs[j].date) {
      assert j == |init|;
      LexIrreflexive(last.date);
    }
  }

  /** A known phone keeps the name and id of its first booking. */
  lemma KnownPhoneNamed(init: seq<Booking>, last: Booking, c: Client, c': Client, mint: string -> string)
    requires NamedByFirst(c, init, last.clientPhone, mint)
    requires c'.id == c.id && c'.name == c.name
    ensures NamedByFirst(c', init + [last], last.clientPhone, mint)
  {
    var bs := init + [last];
    var p := last.clientPhone;
    var i :| 0 <= i < |init| && init[i].clientPhone == p && c.id == mint(p) && c.name == init[i].clientName
             && forall j :: 0 <= j < i ==> init[j].clientPhone != p;
    assert bs[i] == init[i];
    assert forall j :: 0 <= j < i ==> bs[j] == init[j];
  }

  /** A known phone's last visit moves to the newest booking's date exactly
      when that date is a later string, and stays the latest date. */
  lemma KnownPhoneLatest(init: seq<Booking>, last: Booking, c: Client, c': Client)
    requires LatestVisit(c, init, last.clientPhone)
    requires c'.lastVisit == if LexLess(c.lastVisit.value, last.date) then Some(last.date) else c.lastVisit
    ensures LatestVisit(c', init + [last], last.clientPhone)
  {
    var bs := init + [last];
    var p := last.clientPhone;
    var current := c.lastVisit.value;
    var k :| 0 <= k < |init| && init[k].clientPhone == p && init[k].date == current;
    assert bs[|init|] == last;
    if LexLess(current, last.date) {
      forall j | 0 <= j < |bs| && bs[j].clientPhone == p ensures !LexLess(last.date, bs[j].date) {
        if j < |init| {
          assert bs[j] == init[j];
          LexTransitive(current, last.date, bs[j].date);
        } else {
          LexIrreflexive(last.date);
        }
      }
    } else {
      assert bs[k] == init[k];
      forall j | 0 <= j < |bs| && bs[j].clientPhone == p ensures !LexLess(current, bs[j].date) {
        if j < |init| {
          assert bs[j] == init[j];
        }
      }
    }
  }

  /** The page's client for phone `p`: one client per phone with the count,
      first name and latest date of that phone's bookings. */
  lemma ClientOfPhone(bs: seq<Booking>, userId: UserId, mint: string -> string, i: nat)
    requires i < |bs|
    ensures bs[i].clientPhone in Aggregate(bs, userId, mint)
    ensures var c := Aggregate(bs, userId, mint)[bs[i].clientPhone];
            && c.totalBookings == CountPhone(bs, bs[i].clientPhone)
            && c.lastVisit.Some?
            && !LexLess(c.lastVisit.value, bs[i].date)
  {
    AggregateKeys(bs, userId, mint);
    AggregateMeaning(bs, userId, mint);
  }

  /** Sum of `totalBookings` over the clients of the phones `ks`. */
  ghost function SumTotals(m: map<string, Client>, ks: set<string>): int
    requires ks <= m.Keys
    decreases ks
  {
    if ks == {} then 0
    else
      var k :| k in ks;
      m[k].totalBookings + SumTotals(m, ks - {k})
  }

  /** The sum does not depend on which phone is taken out first. */
  lemma {:induction false} SumTotalsRemove(m: map<string, Client>, ks: set<string>, k: string)
    requires ks <= m.Keys && k in ks
    ensures SumTotals(m, ks) == m[k].totalBookings + SumTotals(m, ks - {k})
    decreases ks
  {
    var j :| j in ks && SumTotals(m, ks) == m[j].totalBookings + SumTotals(m, ks - {j});
    if j != k {
      SumTotalsRemove(m, ks - {j}, k);
      SumTotalsRemove(m, ks - {k}, j);
      assert ks - {j} - {k} == ks - {k} - {j};
    }
  }

  /** The sum only reads the clients of the phones summed over. */
  lemma {:induction false} SumTotalsFrame(m: map<string, Client>, m': map<string, Client>, ks: set<string>)
    requires ks <= m.Keys && ks <= m'.Keys
    requires forall k :: k in ks ==> m[k] == m'[k]
    ensures SumTotals(m, ks) == SumTotals(m', ks)
    decreases ks
  {
    if ks != {} {
      var k :| k in ks;
      SumTotalsRemove(m, ks, k);
      SumTotalsRemove(m', ks, k);
      SumTotalsFrame(m, m', ks - {k});
    }
  }

  /** Every booking is counted once: the clients' totals add up to the number
      of bookings, cancelled ones included. */
  lemma {:induction false} TotalsAddUp(bs: seq<Booking>, userId: UserId, mint: string -> string)
    ensures SumTotals(Aggregate(bs, userId, mint), Aggregate(bs, userId, mint).Keys) == |bs|
    decreases |bs|
  {
    if |bs| > 0 {
      var init := bs[..|bs| - 1];
      var last := bs[|bs| - 1];
      var m := Aggregate(init, userId, mint);
      var r := Aggregate(bs, userId, mint);
      var p := last.clientPhone;
      TotalsAddUp(init, userId, mint);
      SumTotalsRemove(r, r.Keys, p);
      SumTotalsFrame(r, m, r.Keys - {p});
      if p in m {
        SumTotalsRemove(m, m.Keys, p);
        assert r.Keys - {p} == m.Keys - {p};
      } else {
        assert r.Keys - {p} == m.Keys;
      }
    }
  }

  // ------------------------------------------------------------- Search

  /** The search box: the lower-cased name contains the lower-cased term, or
      the phone contains the term as typed. */
  predicate MatchesClient(c: Client, term: string) {
    Contains(Lower(c.name), Lower(term)) || Contains(c.phone, term)
  }

  /** `filteredClients`: the clients the search keeps, in order. */
  function FilterClients(cs: seq<Client>, term: string): (r: seq<Client>)
    ensures Subsequence(r, cs)
    ensures forall c :: c in r <==> c in cs && MatchesClient(c, term)
    ensures forall c :: multiset(r)[c] == if MatchesClient(c, term) then multiset(cs)[c] else 0
  {
    FilterMembers(cs, c => MatchesClient(c, term));
    FilterCounts(cs, c => MatchesClient(c, term));
    FilterSubsequence(cs, c => MatchesClient(c, term));
    Filter(cs, c => MatchesClient(c, term))
  }

  /** An empty search keeps every client. */
  lemma EmptySearchKeepsAllClients(cs: seq<Client>)
    ensures FilterClients(cs, "") == cs
  {
    forall c | c in cs ensures MatchesClient(c, "") {
      assert StartsWith(c.phone, "");
    }
    FilterAll(cs, c => MatchesClient(c, ""));
  }

  /** A client is found by any piece of its phone number. */
  lemma FoundByPieceOfPhone(c: Client, i: nat, j: nat)
    requires i <= j <= |c.phone|
    ensures MatchesClient(c, c.phone[i..j])
  {
    assert OccursAt(c.phone, c.phone[i..j], i);
    ContainsComplete(c.phone, c.phone[i..j], i);
  }

  /** A client is found by any piece of its name, whatever the case of the
      letters typed: a term that lower-cases to a piece of the lower-cased
      name. */
  lemma FoundByPieceOfName(c: Client, term: string, i: nat, j: nat)
    requires i <= j <= |c.name|
    requires Lower(term) == Lower(c.name[i..j])
    ensures MatchesClient(c, term)
  {
    assert Lower(c.name[i..j]) == Lower(c.name)[i..j];
    assert OccursAt(Lower(c.name), Lower(term), i);
    ContainsComplete(Lower(c.name), Lower(term), i);
  }

  // ----------------------------------------------------------- WhatsApp

  /** `phone.replace(/\D/g, '')`: the phone's digits, in order. */
  function DigitsOnly(phone: string): (r: string)
    ensures forall k :: 0 <= k < |r| ==> IsDigit(r[k])
    ensures Subsequence(r, phone)
    ensures forall ch :: IsDigit(ch) ==> multiset(r)[ch] == multiset(phone)[ch]
  {
    FilterCounts(phone, IsDigit);
    FilterSubsequence(phone, IsDigit);
    Filter(phone, IsDigit)
  }

  /** The chat link `sendMessage` opens. */
  function WhatsAppUrl(phone: string): (r: string)
    ensures r == "https://wa.me/" + DigitsOnly(phone)
    ensures forall k :: |"https://wa.me/"| <= k < |r| ==> IsDigit(r[k])
  {
    "https://wa.me/" + DigitsOnly(phone)
  }

  /** A number with nothing but digits is used as it is, and cleaning is
      idempotent. */
  lemma DigitsOnlyFixesDigits(phone: string)
    ensures (forall k :: 0 <= k < |phone| ==> IsDigit(phone[k])) ==> DigitsOnly(phone) == phone
    ensures DigitsOnly(DigitsOnly(phone)) == DigitsOnly(phone)
  {
    if forall k :: 0 <= k < |phone| ==> IsDigit(phone[k]) {
      FilterAll(phone, IsDigit);
    }
    FilterAll(DigitsOnly(phone), IsDigit);
  }
}
