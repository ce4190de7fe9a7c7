/** The passenger's ride list (`src/pages/user/UserRides.tsx`): a search and
    status filter over `userRides`, and the grouping into pending, active and
    completed tabs. */
module UserRidesView {
  import opened Domain
  import opened Seqs
  import Rides
  import Text

  /** The status drop-down: "all" or one of the four statuses. */
  datatype StatusFilter = AllStatuses | OnlyStatus(status: Status)

  datatype Query = Query(searchTerm: string, statusFilter: StatusFilter)

  predicate MatchesStatus(r: Ride, f: StatusFilter)
  {
    f.AllStatuses? || r.status == f.status
  }

  predicate MatchesQuery(r: Ride, q: Query)
  {
    Rides.AddressMatches(r, q.searchTerm) && MatchesStatus(r, q.statusFilter)
  }

  /** `filteredRides`: the rides whose pickup or dropoff address includes the
      search term, ignoring case, and whose status passes the filter, in
      their original order. */
  function FilteredRides(userRides: seq<Ride>, searchTerm: string, statusFilter: StatusFilter): (r: seq<Ride>)
    ensures forall x :: x in r <==>
      x in userRides && Rides.AddressMatches(x, searchTerm) && MatchesStatus(x, statusFilter)
    ensures forall x :: multiset(r)[x] == if MatchesQuery(x, Query(searchTerm, statusFilter)) then multiset(userRides)[x] else 0
    ensures IsSubsequence(r, userRides)
  {
    Filter(userRides, MatchesQuery, Query(searchTerm, statusFilter))
  }

  /** With no search term and every status allowed, nothing is filtered out. */
  lemma UnfilteredShowsAll(userRides: seq<Ride>)
    ensures FilteredRides(userRides, "", AllStatuses) == userRides
  {
    forall i | 0 <= i < |userRides|
      ensures MatchesQuery(userRides[i], Query("", AllStatuses))
    {
      Text.IncludesEmpty(userRides[i].pickup.address);
    }
    FilterKeepsAll(userRides, MatchesQuery, Query("", AllStatuses));
  }

  /** The search is case-insensitive: terms that differ only in case give
      the same list. */
  lemma SearchIgnoresCase(userRides: seq<Ride>, term: string, term': string, statusFilter: StatusFilter)
    requires Text.Lower(term) == Text.Lower(term')
    ensures FilteredRides(userRides, term, statusFilter) == FilteredRides(userRides, term', statusFilter)
  {
    forall i | 0 <= i < |userRides|
      ensures MatchesQuery(userRides[i], Query(term, statusFilter)) <==> MatchesQuery(userRides[i], Query(term', statusFilter))
    {
      Rides.AddressMatchesIgnoresCase(userRides[i], term, term');
    }
    FilterSameVerdicts(userRides, MatchesQuery, Query(term, statusFilter), Query(term', statusFilter));
  }

  const PendingGroup: set<Status> := {Pending}

  /** `pendingRides`; `activeRides` and `completedRides` are
      `Rides.ActiveRides` and `Rides.FinishedRides`. */
  function PendingRides(userRides: seq<Ride>): (r: seq<Ride>)
    ensures forall x :: x in r <==> x in userRides && x.status == Pending
    ensures forall x :: multiset(r)[x] == if x.status == Pending then multiset(userRides)[x] else 0
  {
    Rides.InStatus(userRides, PendingGroup)
  }

  /** The three tabs partition the rides: each ride is in exactly one of
      them, and the tab counts add up to the number of rides. */
  lemma TabsPartitionRides(userRides: seq<Ride>)
    ensures forall x :: x in userRides ==>
      x in PendingRides(userRides) || x in Rides.ActiveRides(userRides) || x in Rides.FinishedRides(userRides)
    ensures forall x :: x in PendingRides(userRides) ==> x !in Rides.ActiveRides(userRides) && x !in Rides.FinishedRides(userRides)
    ensures forall x :: x in Rides.ActiveRides(userRides) ==> x !in Rides.FinishedRides(userRides)
    ensures |PendingRides(userRides)| + |Rides.ActiveRides(userRides)| + |Rides.FinishedRides(userRides)| == |userRides|
  {
    var all: set<Status> := {Pending, Accepted, Completed, Cancelled};
    var open: set<Status> := {Pending, Accepted};
    FilterSplitLength(userRides, Rides.HasStatusIn, all, open, Rides.FinishedGroup);
    FilterSplitLength(userRides, Rides.HasStatusIn, open, PendingGroup, Rides.ActiveGroup);
    forall i | 0 <= i < |userRides|
      ensures Rides.HasStatusIn(userRides[i], all)
    {
      match userRides[i].status
      case Pending =>
      case Accepted =>
      case Completed =>
      case Cancelled =>
    }
    FilterKeepsAll(userRides, Rides.HasStatusIn, all);
  }
}
