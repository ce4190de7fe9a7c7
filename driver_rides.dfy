/** The driver's ride board (`src/pages/driver/DriverRides.tsx`): a search
    over the available rides, and the driver's own rides split into the
    active and completed tabs (`Rides.ActiveRides`, `Rides.FinishedRides`). */
module DriverRidesView {
  import opened Domain
  import opened Seqs
  import Rides
  import Text

  /** `filteredAvailableRides`: the available rides whose pickup or dropoff
      address includes the search term, ignoring case, in their order. */
  function FilteredAvailableRides(availableRides: seq<Ride>, searchTerm: string): (r: seq<Ride>)
    ensures forall x :: x in r <==> x in availableRides && Rides.AddressMatches(x, searchTerm)
    ensures forall x :: multiset(r)[x] == if Rides.AddressMatches(x, searchTerm) then multiset(availableRides)[x] else 0
    ensures IsSubsequence(r, availableRides)
  {
    Filter(availableRides, Rides.AddressMatches, searchTerm)
  }

  /** An empty search shows every available ride. */
  lemma EmptySearchShowsAll(availableRides: seq<Ride>)
    ensures FilteredAvailableRides(availableRides, "") == availableRides
  {
    forall i | 0 <= i < |availableRides|
      ensures Rides.AddressMatches(availableRides[i], "")
    {
      Text.IncludesEmpty(availableRides[i].pickup.address);
    }
    FilterKeepsAll(availableRides, Rides.AddressMatches, "");
  }

  /** The search is case-insensitive: terms that differ only in case give
      the same list. */
  lemma SearchIgnoresCase(availableRides: seq<Ride>, term: string, term': string)
    requires Text.Lower(term) == Text.Lower(term')
    ensures FilteredAvailableRides(availableRides, term) == FilteredAvailableRides(availableRides, term')
  {
    forall i | 0 <= i < |availableRides|
      ensures Rides.AddressMatches(availableRides[i], term) <==> Rides.AddressMatches(availableRides[i], term')
    {
      Rides.AddressMatchesIgnoresCase(availableRides[i], term, term');
    }
    FilterSameVerdicts(availableRides, Rides.AddressMatches, term, term');
  }

  /** Because an accepted ride is never pending, the two tabs split the
      driver's rides: each is in exactly one tab, and the counts add up. */
  lemma TabsSplitDriverRides(rides: seq<Ride>, user: Option<User>)
    requires Rides.LedgerInvariant(rides)
    ensures var mine := Rides.DriverRides(rides, user);
      && (forall x :: x in mine ==> (x in Rides.ActiveRides(mine) <==> x !in Rides.FinishedRides(mine)))
      && |Rides.ActiveRides(mine)| + |Rides.FinishedRides(mine)| == |mine|
  {
    var mine := Rides.DriverRides(rides, user);
    var started: set<Status> := {Accepted, Completed, Cancelled};
    forall i | 0 <= i < |mine|
      ensures Rides.HasStatusIn(mine[i], started)
    {
      assert mine[i] in rides;
      var j :| 0 <= j < |rides| && rides[j] == mine[i];
      assert rides[j].acceptedBy.Some?;
    }
    FilterSplitLength(mine, Rides.HasStatusIn, started, Rides.ActiveGroup, Rides.FinishedGroup);
    FilterKeepsAll(mine, Rides.HasStatusIn, started);
  }

  /** Without the invariant the split can fail: a pending ride carrying a
      driver falls in neither tab. */
  lemma PendingAssignedRideInNoTab(ride: Ride, driver: User)
    requires driver.role == DriverRole && ride.acceptedBy == Some(driver.id)
    requires ride.status == Pending
    ensures ride in Rides.DriverRides([ride], Some(driver))
    ensures ride !in Rides.ActiveRides([ride]) && ride !in Rides.FinishedRides([ride])
  {
  }
}
