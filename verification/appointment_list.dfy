/** The appointments page of src/pages/AppointmentList.tsx: the business's
    bookings filtered by a search term and a status tab, grouped by date,
    with the dates listed newest first. */
module AppointmentList {
  import opened Common
  import opened Strings
  import opened Types

  /** A booking's status as the page's tabs name it. */
  function StatusName(st: Status): string {
    match st
    case Pending => "pending"
    case Confirmed => "confirmed"
    case Cancelled => "cancelled"
  }

  /** The search box: an empty term, or the lower-cased client or service
      name containing the lower-cased term. */
  predicate MatchesSearch(b: Booking, term: string) {
    || term == ""
    || Contains(Lower(b.clientName), Lower(term))
    || Contains(Lower(b.serviceName), Lower(term))
  }

  /** The filter's test for one booking: the search, and for the three
      status tabs also the status. Any other tab, "all" included, applies the
      search alone. */
  predicate Shown(b: Booking, term: string, tab: string) {
    if tab == "all" then MatchesSearch(b, term)
    else if tab == "confirmed" then MatchesSearch(b, term) && b.status == Confirmed
    else if tab == "pending" then MatchesSearch(b, term) && b.status == Pending
    else if tab == "cancelled" then MatchesSearch(b, term) && b.status == Cancelled
    else MatchesSearch(b, term)
  }

  /** `filteredBookings`. */
  function FilteredBookings(bs: seq<Booking>, term: string, tab: string): (r: seq<Booking>)
    ensures Subsequence(r, bs)
    ensures forall b :: b in r <==> b in bs && Shown(b, term, tab)
    ensures forall b :: multiset(r)[b] == if Shown(b, term, tab) then multiset(bs)[b] else 0
  {
    FilterMembers(bs, b => Shown(b, term, tab));
    FilterCounts(bs, b => Shown(b, term, tab));
    FilterSubsequence(bs, b => Shown(b, term, tab));
    Filter(bs, b => Shown(b, term, tab))
  }

  /** A status tab shows exactly the matching bookings with that status. */
  lemma StatusTabShowsThatStatus(bs: seq<Booking>, term: string, st: Status)
    ensures forall b :: b in FilteredBookings(bs, term, StatusName(st)) <==>
              b in bs && MatchesSearch(b, term) && b.status == st
  {
  }

  /** The "all" tab with an empty search shows every booking, in order. */
  lemma AllTabEmptySearchShowsAll(bs: seq<Booking>)
    ensures FilteredBookings(bs, "", "all") == bs
  {
    FilterAll(bs, b => Shown(b, "", "all"));
  }

  /** A tab the page does not know filters like "all". */
  lemma UnknownTabIsAll(bs: seq<Booking>, term: string, tab: string)
    requires tab !in {"all", "confirmed", "pending", "cancelled"}
    ensures FilteredBookings(bs, term, tab) == FilteredBookings(bs, term, "all")
  {
    FilterCongruent(bs, b => Shown(b, term, tab), b => Shown(b, term, "all"));
  }

  // ------------------------------------------------------------ Grouping

  /** `groupedBookings`: the `forEach` that pushes each booking onto the list
      of its date, oldest booking first. */
  function GroupByDate(bs: seq<Booking>): (g: map<string, seq<Booking>>)
    decreases |bs|
  {
    if |bs| == 0 then map[]
    else
      var g := GroupByDate(bs[..|bs| - 1]);
      var b := bs[|bs| - 1];
      g[b.date := (if b.date in g then g[b.date] else []) + [b]]
  }

  predicate OnDate(b: Booking, d: string) {
    b.date == d
  }

  /** The groups are keyed by exactly the dates that occur. */
  lemma {:induction false} GroupKeys(bs: seq<Booking>)
    ensures forall d :: d in GroupByDate(bs) <==> exists i :: 0 <= i < |bs| && bs[i].date == d
    decreases |bs|
  {
    if |bs| > 0 {
      var init := bs[..|bs| - 1];
      var last := bs[|bs| - 1];
      GroupKeys(init);
      forall d ensures d in GroupByDate(bs) <==> exists i :: 0 <= i < |bs| && bs[i].date == d {
        if d in GroupByDate(bs) && d != last.date {
          assert d in GroupByDate(init);
          var i :| 0 <= i < |init| && init[i].date == d;
          assert bs[i] == init[i];
        }
        if exists i :: 0 <= i < |bs| && bs[i].date == d {
          var i :| 0 <= i < |bs| && bs[i].date == d;
          if i < |init| {
            assert init[i] == bs[i];
          }
        }
      }
    }
  }

  /** Each group is the bookings of its date in their original order. */
  lemma {:induction false} GroupsAreFilters(bs: seq<Booking>)
    ensures forall d :: d in GroupByDate(bs) ==> GroupByDate(bs)[d] == Filter(bs, b => OnDate(b, d))
    decreases |bs|
  {
    if |bs| > 0 {
      var init := bs[..|bs| - 1];
      var last := bs[|bs| - 1];
      var g := GroupByDate(init);
      GroupsAreFilters(init);
      GroupKeys(init);
      assert bs == init + [last];
      forall d | d in GroupByDate(bs) ensures GroupByDate(bs)[d] == Filter(bs, b => OnDate(b, d)) {
        GroupStep(init, last, d);
      }
    }
  }

  /** One booking pushed onto the groups keeps each group a filter. */
  lemma GroupStep(init: seq<Booking>, last: Booking, d: string)
    requires forall d :: d in GroupByDate(init) <==> exists i :: 0 <= i < |init| && init[i].date == d
    requires d in GroupByDate(init) ==> GroupByDate(init)[d] == Filter(init, b => OnDate(b, d))
    requires d in GroupByDate(init + [last])
    ensures GroupByDate(init + [last])[d] == Filter(init + [last], b => OnDate(b, d))
  {
    var bs := init + [last];
    assert bs[..|bs| - 1] == init && bs[|bs| - 1] == last;
    FilterAppend(init, [last], b => OnDate(b, d));
    if d !in GroupByDate(init) {
      FilterNone(init, d);
    }
  }

  /** No booking of a list without date `d` is on date `d`. */
  lemma FilterNone(bs: seq<Booking>, d: string)
    requires forall i :: 0 <= i < |bs| ==> bs[i].date != d
    ensures Filter(bs, b => OnDate(b, d)) == []
  {
  }

  /** Each booking lands in exactly one group: the one of its date. */
  lemma EachBookingInOneGroup(bs: seq<Booking>, b: Booking)
    requires b in bs
    ensures b.date in GroupByDate(bs) && b in GroupByDate(bs)[b.date]
    ensures forall d :: d in GroupByDate(bs) && b in GroupByDate(bs)[d] ==> d == b.date
  {
    GroupKeys(bs);
    GroupsAreFilters(bs);
    var i :| 0 <= i < |bs| && bs[i] == b;
  }

  // ------------------------------------------------------------- Sorting

  /** The latest of a non-empty set of dates under string order. */
  method Latest(ks: set<string>) returns (m: string)
    requires ks != {}
    ensures m in ks
    ensures forall k :: k in ks ==> !LexLess(m, k)
  {
    m :| m in ks;
    LexIrreflexive(m);
    var rest := ks - {m};
    while rest != {}
      invariant rest <= ks && m in ks && m !in rest
      invariant forall k :: k in ks && k !in rest ==> !LexLess(m, k)
      decreases rest
    {
      var k :| k in rest;
      if LexLess(m, k) {
        forall k' | k' in ks && k' !in rest ensures !LexLess(k, k') {
          LexAsymmetric(m, k);
          LexNotLessTransitive(k, m, k');
        }
        LexIrreflexive(k);
        m := k;
      }
      rest := rest - {k};
    }
  }

  /** `sortedDates`: the group keys, newest first. */
  method SortedDates(g: map<string, seq<Booking>>) returns (ds: seq<string>)
    ensures forall d :: d in ds <==> d in g
    ensures forall i, j :: 0 <= i < j < |ds| ==> LexLess(ds[j], ds[i])
    ensures NoDup(ds)
    ensures forall d :: multiset(ds)[d] == if d in g then 1 else 0
  {
    ds := [];
    var rest := g.Keys;
    while rest != {}
      invariant rest <= g.Keys
      invariant forall d :: d in ds <==> d in g && d !in rest
      invariant forall i, j :: 0 <= i < j < |ds| ==> LexLess(ds[j], ds[i])
      invariant forall i, k :: 0 <= i < |ds| && k in rest ==> LexLess(k, ds[i])
      decreases rest
    {
      var m := Latest(rest);
      forall k | k in rest - {m} ensures LexLess(k, m) {
        LexTotal(k, m);
      }
      ds := ds + [m];
      rest := rest - {m};
    }
    forall i, j | 0 <= i < j < |ds| ensures ds[i] != ds[j] {
      LexIrreflexive(ds[i]);
    }
    NoDupMultiset(ds);
  }

  /** A date occurs among the shown bookings exactly when some booking
      with that date passes the filter. */
  lemma ShownDate(bs: seq<Booking>, term: string, tab: string, d: string)
    ensures (exists i :: 0 <= i < |FilteredBookings(bs, term, tab)| && FilteredBookings(bs, term, tab)[i].date == d)
            <==> exists b :: b in bs && Shown(b, term, tab) && b.date == d
  {
    var shown := FilteredBookings(bs, term, tab);
    if exists i :: 0 <= i < |shown| && shown[i].date == d {
      var i :| 0 <= i < |shown| && shown[i].date == d;
      assert shown[i] in shown;
    }
    if exists b :: b in bs && Shown(b, term, tab) && b.date == d {
      var b :| b in bs && Shown(b, term, tab) && b.date == d;
      assert b in shown;
      var i :| 0 <= i < |shown| && shown[i] == b;
    }
  }

  /** The page's day list: exactly the dates of the shown bookings, newest
      first. */
  method DayList(bs: seq<Booking>, term: string, tab: string) returns (ds: seq<string>)
    ensures forall d :: d in ds <==> exists b :: b in bs && Shown(b, term, tab) && b.date == d
    ensures forall i, j :: 0 <= i < j < |ds| ==> LexLess(ds[j], ds[i])
  {
    var shown := FilteredBookings(bs, term, tab);
    GroupKeys(shown);
    ds := SortedDates(GroupByDate(shown));
    forall d ensures d in ds <==> exists b :: b in bs && Shown(b, term, tab) && b.date == d {
      ShownDate(bs, term, tab, d);
    }
  }
}
