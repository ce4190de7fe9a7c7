/** The operator's statistics (`src/pages/admin/AdminDashboard.tsx`): ride
    counts, revenue and average price over the whole ledger, and the
    time/search-filtered list with its total distance and conversion rate. */
module AdminDashboard {
  import opened Domain
  import opened Seqs
  import Rides
  import Text
  import Rounding

  const CompletedOnly: set<Status> := {Completed}
  const PendingOnly: set<Status> := {Pending}

  /** `completedRides` (a count): at most the number of rides, and zero
      exactly when no ride is completed. */
  function CompletedCount(rides: seq<Ride>): (n: nat)
    ensures n <= |rides|
    ensures n == 0 <==> forall i :: 0 <= i < |rides| ==> rides[i].status != Completed
  {
    var done := Rides.InStatus(rides, CompletedOnly);
    assert forall i :: 0 <= i < |rides| && rides[i].status == Completed ==> rides[i] in done;
    |done|
  }

  /** `pendingRides` (a count): at most the number of rides, and zero
      exactly when no ride is pending. */
  function PendingCount(rides: seq<Ride>): (n: nat)
    ensures n <= |rides|
    ensures n == 0 <==> forall i :: 0 <= i < |rides| ==> rides[i].status != Pending
  {
    var pending := Rides.InStatus(rides, PendingOnly);
    assert forall i :: 0 <= i < |rides| && rides[i].status == Pending ==> rides[i] in pending;
    |pending|
  }

  /** Completed and pending rides together never outnumber all rides. */
  lemma CountsWithinTotal(rides: seq<Ride>)
    ensures CompletedCount(rides) + PendingCount(rides) <= |rides|
  {
    var both: set<Status> := {Completed, Pending};
    FilterSplitLength(rides, Rides.HasStatusIn, both, CompletedOnly, PendingOnly);
  }

  function Price(r: Ride): real
  {
    r.price
  }

  function Distance(r: Ride): real
  {
    r.distance
  }

  /** Completed rides with non-negative prices add up to a non-negative total. */
  lemma CompletedRevenueNonNegative(rides: seq<Ride>)
    ensures (forall i :: 0 <= i < |rides| && rides[i].status == Completed ==> rides[i].price >= 0.0) ==>
      Sum(Rides.InStatus(rides, CompletedOnly), Price) >= 0.0
  {
    var done := Rides.InStatus(rides, CompletedOnly);
    if forall i :: 0 <= i < |rides| && rides[i].status == Completed ==> rides[i].price >= 0.0 {
      forall i | 0 <= i < |done|
        ensures Price(done[i]) >= 0.0
      {
        assert done[i] in rides;
      }
      SumNonNegative(done, Price);
    }
  }

  /** `totalRevenue`: the prices of the completed rides added up; nothing
      when no ride is completed, and never negative when no completed ride
      has a negative price. */
  function TotalRevenue(rides: seq<Ride>): (total: real)
    ensures CompletedCount(rides) == 0 ==> total == 0.0
    ensures (forall i :: 0 <= i < |rides| && rides[i].status == Completed ==> rides[i].price >= 0.0) ==> total >= 0.0
  {
    CompletedRevenueNonNegative(rides);
    Sum(Rides.InStatus(rides, CompletedOnly), Price)
  }

  /** With no completed ride there is no revenue, whatever else the ledger holds. */
  lemma NoCompletedRideNoRevenue(rides: seq<Ride>)
    requires forall i :: 0 <= i < |rides| ==> rides[i].status != Completed
    ensures TotalRevenue(rides) == 0.0 && CompletedCount(rides) == 0
  {
    FilterDropsAll(rides, Rides.HasStatusIn, CompletedOnly);
  }

  /** With non-negative prices, revenue lies between zero and the sum of all prices. */
  lemma RevenueAtMostAllPrices(rides: seq<Ride>)
    requires forall i :: 0 <= i < |rides| ==> rides[i].price >= 0.0
    ensures 0.0 <= TotalRevenue(rides) <= Sum(rides, Price)
  {
    var done := Rides.InStatus(rides, CompletedOnly);
    forall i | 0 <= i < |done|
      ensures Price(done[i]) >= 0.0
    {
      assert done[i] in rides;
    }
    SumNonNegative(done, Price);
    SumOfSubsequence(done, rides, Price);
  }

  /** `avgRidePrice`: revenue per completed ride, rounded to cents; zero when
      nothing is completed. */
  function AvgRidePrice(rides: seq<Ride>): (avg: real)
    ensures CompletedCount(rides) == 0 ==> avg == 0.0
    ensures CompletedCount(rides) > 0 ==>
      var mean := TotalRevenue(rides) / CompletedCount(rides) as real;
      mean - 0.005 <= avg <= mean + 0.005
    ensures (avg * 100.0).Floor as real == avg * 100.0
  {
    if CompletedCount(rides) == 0 then 0.0
    else Rounding.RoundToCents(TotalRevenue(rides) / CompletedCount(rides) as real)
  }

  /** A total between m times `lo` and m times `hi` has its m-th part between them. */
  lemma QuotientBounds(total: real, m: real, lo: real, hi: real)
    requires m > 0.0 && m * lo <= total <= m * hi
    ensures lo <= total / m <= hi
  {
  }

  /** A total between n copies of `lo` and n copies of `hi` has its n-th part
      between them, and so does its rounding to cents. */
  lemma RoundedQuotientBounds(total: real, n: nat, lo: real, hi: real)
    requires n > 0 && Times(n, lo) <= total <= Times(n, hi)
    ensures Rounding.RoundToCents(lo) <= Rounding.RoundToCents(total / n as real) <= Rounding.RoundToCents(hi)
  {
    TimesIsProduct(n, lo);
    TimesIsProduct(n, hi);
    var m := n as real;
    QuotientBounds(total, m, lo, hi);
    Rounding.RoundToCentsMonotone(lo, total / m);
    Rounding.RoundToCentsMonotone(total / m, hi);
  }

  /** Every completed ride's price lies within bounds that hold for all of them. */
  lemma CompletedPricesWithin(rides: seq<Ride>, lo: real, hi: real)
    requires forall i :: 0 <= i < |rides| && rides[i].status == Completed ==> lo <= rides[i].price <= hi
    ensures var done := Rides.InStatus(rides, CompletedOnly);
      forall i :: 0 <= i < |done| ==> lo <= Price(done[i]) <= hi
  {
    var done := Rides.InStatus(rides, CompletedOnly);
    forall i | 0 <= i < |done|
      ensures lo <= Price(done[i]) <= hi
    {
      assert done[i] in rides;
    }
  }

  /** Revenue lies between the completed count times `lo` and times `hi`. */
  lemma RevenueBounds(rides: seq<Ride>, lo: real, hi: real)
    requires forall i :: 0 <= i < |rides| && rides[i].status == Completed ==> lo <= rides[i].price <= hi
    ensures Times(CompletedCount(rides), lo) <= TotalRevenue(rides) <= Times(CompletedCount(rides), hi)
  {
    CompletedPricesWithin(rides, lo, hi);
    SumBounds(Rides.InStatus(rides, CompletedOnly), Price, lo, hi);
  }

  /** The average lies between the cheapest and the dearest completed ride
      (after rounding to cents). */
  lemma AveragePriceWithinRange(rides: seq<Ride>, lo: real, hi: real)
    requires CompletedCount(rides) > 0
    requires forall i :: 0 <= i < |rides| && rides[i].status == Completed ==> lo <= rides[i].price <= hi
    ensures Rounding.RoundToCents(lo) <= AvgRidePrice(rides) <= Rounding.RoundToCents(hi)
  {
    RevenueBounds(rides, lo, hi);
    RoundedQuotientBounds(TotalRevenue(rides), CompletedCount(rides), lo, hi);
  }

  /** The time drop-down. The start of today, of the week or of the month
      is worked out from the clock; `Since` carries that instant. */
  datatype TimeFilter = AllTime | Since(start: Timestamp)

  predicate CreatedSince(r: Ride, start: Timestamp)
  {
    r.createdAt >= start
  }

  /** The passenger name, pickup or dropoff address includes the term, ignoring case. */
  predicate SearchMatches(r: Ride, term: string)
  {
    Text.IncludesIgnoringCase(r.userName, term) || Rides.AddressMatches(r, term)
  }

  /** The passenger-name and address search ignores the case of the term. */
  lemma {:induction false} SearchMatchesIgnoresCase(r: Ride, term: string, term': string)
    requires Text.Lower(term) == Text.Lower(term')
    ensures SearchMatches(r, term) <==> SearchMatches(r, term')
  {
    Text.IncludesIgnoresCase(r.userName, r.userName, term, term');
    Rides.AddressMatchesIgnoresCase(r, term, term');
  }

  /** The search step of `getFilteredRides`. */
  function SearchRides(rides: seq<Ride>, term: string): (r: seq<Ride>)
    ensures forall x :: x in r <==> x in rides && SearchMatches(x, term)
    ensures forall x :: multiset(r)[x] == if SearchMatches(x, term) then multiset(rides)[x] else 0
    ensures IsSubsequence(r, rides)
  {
    Filter(rides, SearchMatches, term)
  }

  /** The search step is skipped for an empty term; running it would keep
      every ride anyway. */
  lemma EmptySearchKeepsAll(rides: seq<Ride>)
    ensures SearchRides(rides, "") == rides
  {
    forall i | 0 <= i < |rides|
      ensures SearchMatches(rides[i], "")
    {
      Text.IncludesEmpty(rides[i].userName);
    }
    FilterKeepsAll(rides, SearchMatches, "");
  }

  /** Terms that differ only in case find the same rides. */
  lemma SearchIgnoresCase(rides: seq<Ride>, term: string, term': string)
    requires Text.Lower(term) == Text.Lower(term')
    ensures SearchRides(rides, term) == SearchRides(rides, term')
  {
    forall i | 0 <= i < |rides|
      ensures SearchMatches(rides[i], term) <==> SearchMatches(rides[i], term')
    {
      SearchMatchesIgnoresCase(rides[i], term, term');
    }
    FilterSameVerdicts(rides, SearchMatches, term, term');
  }

  /** A ride passes the time filter and, for a non-empty term, the search. */
  predicate PassesFilters(r: Ride, timeFilter: TimeFilter, searchTerm: string)
  {
    && (timeFilter.Since? ==> r.createdAt >= timeFilter.start)
    && (searchTerm != "" ==> SearchMatches(r, searchTerm))
  }

  /** `getFilteredRides`: the rides created since the chosen instant that
      match the search, in ledger order. */
  function GetFilteredRides(rides: seq<Ride>, timeFilter: TimeFilter, searchTerm: string): (r: seq<Ride>)
    ensures forall x :: x in r <==>
      && x in rides
      && (timeFilter.Since? ==> x.createdAt >= timeFilter.start)
      && (searchTerm != "" ==> SearchMatches(x, searchTerm))
    ensures forall x :: multiset(r)[x] == if PassesFilters(x, timeFilter, searchTerm) then multiset(rides)[x] else 0
    ensures IsSubsequence(r, rides)
  {
    var byTime := match timeFilter
      case AllTime => rides
      case Since(start) => Filter(rides, CreatedSince, start);
    assert IsSubsequence(byTime, rides) by {
      if timeFilter.AllTime? {
        SubsequenceOfItself(rides);
      }
    }
    if searchTerm != "" then
      SubsequenceTransitive(SearchRides(byTime, searchTerm), byTime, rides);
      SearchRides(byTime, searchTerm)
    else byTime
  }

  /** The whole filter ignores the case of the search term. */
  lemma FilterIgnoresCase(rides: seq<Ride>, timeFilter: TimeFilter, term: string, term': string)
    requires Text.Lower(term) == Text.Lower(term')
    ensures GetFilteredRides(rides, timeFilter, term) == GetFilteredRides(rides, timeFilter, term')
  {
    var byTime := match timeFilter
      case AllTime => rides
      case Since(start) => Filter(rides, CreatedSince, start);
    if term != "" {
      SearchIgnoresCase(byTime, term, term');
    }
  }

  /** All time and no search term: every ride, in order. */
  lemma UnfilteredIsEverything(rides: seq<Ride>)
    ensures GetFilteredRides(rides, AllTime, "") == rides
  {
  }

  /** "Total Distance": the distances of the filtered rides added up. */
  function TotalDistance(filtered: seq<Ride>): (total: real)
    ensures filtered == [] ==> total == 0.0
    ensures (forall i :: 0 <= i < |filtered| ==> filtered[i].distance >= 0.0) ==> total >= 0.0
  {
    if forall i :: 0 <= i < |filtered| ==> Distance(filtered[i]) >= 0.0 then
      SumNonNegative(filtered, Distance);
      Sum(filtered, Distance)
    else
      Sum(filtered, Distance)
  }

  /** Filtering never raises the total distance above that of all rides. */
  lemma FilteredDistanceAtMostAll(rides: seq<Ride>, timeFilter: TimeFilter, searchTerm: string)
    requires forall i :: 0 <= i < |rides| ==> rides[i].distance >= 0.0
    ensures 0.0 <= TotalDistance(GetFilteredRides(rides, timeFilter, searchTerm)) <= TotalDistance(rides)
  {
    var f := GetFilteredRides(rides, timeFilter, searchTerm);
    SumOfSubsequence(f, rides, Distance);
    forall i | 0 <= i < |f|
      ensures Distance(f[i]) >= 0.0
    {
      assert f[i] in rides;
    }
    SumNonNegative(f, Distance);
  }

  /** "Conversion Rate": the percentage of the filtered rides that are
      completed, rounded to a whole number; zero for an empty list. */
  function ConversionRate(filtered: seq<Ride>): (rate: int)
    ensures 0 <= rate <= 100
    ensures CompletedCount(filtered) == 0 ==> rate == 0
    ensures |filtered| > 0 && CompletedCount(filtered) == |filtered| ==> rate == 100
  {
    if |filtered| == 0 then 0
    else
      var c := CompletedCount(filtered) as real;
      var n := |filtered| as real;
      PercentBounds(c, n);
      Rounding.RoundWithin(c / n * 100.0, 0, 100);
      Rounding.RoundIntegerIsItself(0);
      Rounding.RoundIntegerIsItself(100);
      Rounding.RoundHalfAway(c / n * 100.0)
  }

  /** A share c of n, as a percentage. */
  lemma PercentBounds(c: real, n: real)
    requires 0.0 <= c <= n && n > 0.0
    ensures 0.0 <= c / n * 100.0 <= 100.0
    ensures c == n ==> c / n * 100.0 == 100.0
    ensures c == 0.0 ==> c / n * 100.0 == 0.0
  {
    assert c / n <= 1.0;
  }

  lemma ConversionRateBounds(filtered: seq<Ride>)
    ensures 0 <= ConversionRate(filtered) <= 100
    ensures (forall i :: 0 <= i < |filtered| ==> filtered[i].status == Completed) ==>
      ConversionRate(filtered) == (if |filtered| == 0 then 0 else 100)
    ensures (forall i :: 0 <= i < |filtered| ==> filtered[i].status != Completed) ==>
      ConversionRate(filtered) == 0
  {
    if |filtered| > 0 {
      var c := CompletedCount(filtered) as real;
      var n := |filtered| as real;
      PercentBounds(c, n);
      Rounding.RoundWithin(c / n * 100.0, 0, 100);
      if forall i :: 0 <= i < |filtered| ==> filtered[i].status == Completed {
        FilterKeepsAll(filtered, Rides.HasStatusIn, CompletedOnly);
        Rounding.RoundIntegerIsItself(100);
      }
      if forall i :: 0 <= i < |filtered| ==> filtered[i].status != Completed {
        FilterDropsAll(filtered, Rides.HasStatusIn, CompletedOnly);
        Rounding.RoundIntegerIsItself(0);
      }
    }
  }
}
