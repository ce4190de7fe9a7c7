/** The ride ledger (`src/context/RidesContext.tsx`): one list of ride
    requests, replaced as a whole by four operations (create, accept,
    complete, cancel), and three role-dependent views of it. The operations
    check the caller's role but never the ride's current status. */
module Rides {
  import opened Domain
  import opened Seqs
  import Text
  import Rounding
  import Auth

  const HourMs: int := 60 * 60 * 1000

  /** The ledger's contents when local storage holds none; `now` is the
      clock reading the sample timestamps are taken back from. */
  function SampleRides(now: Timestamp): (rides: seq<Ride>)
    ensures |rides| == 3
    ensures forall i :: 0 <= i < |rides| ==>
      rides[i].userId == Auth.DefaultUser.id && rides[i].createdAt <= now && rides[i].price > 0.0
    ensures [rides[0].status, rides[1].status, rides[2].status] == [Pending, Completed, Accepted]
  {
    [ Ride("1", "1", "John Doe", Some("+55 11 99999-9999"),
           Location(-46.6333, -23.5505, "Av. Paulista, 1000 - São Paulo"),
           Location(-46.6500, -23.5608, "Rua Augusta, 500 - São Paulo"),
           2.5, 4.5, Pending, now, None, None, None, None),
      Ride("2", "1", "John Doe", Some("+55 11 99999-9999"),
           Location(-46.6420, -23.5555, "Rua Oscar Freire, 300 - São Paulo"),
           Location(-46.6610, -23.5650, "Av. Rebouças, 1200 - São Paulo"),
           3.2, 5.76, Completed, now - 24 * HourMs, Some("2"),
           Some(now - 23 * HourMs), Some(now - 22 * HourMs), None),
      Ride("3", "1", "John Doe", Some("+55 11 99999-9999"),
           Location(-46.6333, -23.5505, "Shopping Ibirapuera - São Paulo"),
           Location(-46.6700, -23.5800, "Aeroporto de Congonhas - São Paulo"),
           8.7, 15.66, Accepted, now - 2 * HourMs, Some("2"),
           Some(now - 1 * HourMs), None, None) ]
  }

  // ---------------------------------------------------------------- pricing

  /** R$ 1.80 per kilometre, rounded to cents. */
  const RatePerKm: real := 1.8

  function PriceFor(distance: real): (price: real)
    ensures (price * 100.0).Floor as real == price * 100.0
    ensures distance * RatePerKm - 0.005 <= price <= distance * RatePerKm + 0.005
    ensures distance >= 0.0 ==> price >= 0.0
  {
    Rounding.RoundToCents(distance * RatePerKm)
  }

  /** Longer rides never cost less. */
  lemma PriceMonotone(d1: real, d2: real)
    requires d1 <= d2
    ensures PriceFor(d1) <= PriceFor(d2)
  {
    Rounding.RoundToCentsMonotone(d1 * RatePerKm, d2 * RatePerKm);
  }

  // ------------------------------------------------------------- invariants

  /** A ride that some driver has accepted is never pending, and it carries
      an acceptance time exactly when it carries a driver. */
  ghost predicate LedgerInvariant(rides: seq<Ride>)
  {
    forall i :: 0 <= i < |rides| ==>
      (rides[i].acceptedBy.Some? ==> rides[i].status != Pending) &&
      (rides[i].acceptedBy.Some? <==> rides[i].acceptedAt.Some?)
  }

  ghost predicate DistinctIds(rides: seq<Ride>)
  {
    forall i, j :: 0 <= i < j < |rides| ==> rides[i].id != rides[j].id
  }

  /** Every price in the ledger is the rate applied to its distance. */
  ghost predicate PricesFollowRate(rides: seq<Ride>)
  {
    forall i :: 0 <= i < |rides| ==> rides[i].price == PriceFor(rides[i].distance)
  }

  lemma SampleRidesAreConsistent(now: Timestamp)
    ensures LedgerInvariant(SampleRides(now))
    ensures DistinctIds(SampleRides(now))
    ensures PricesFollowRate(SampleRides(now))
  {
    Rounding.RoundIntegerIsItself(450);
    Rounding.RoundIntegerIsItself(576);
    Rounding.RoundIntegerIsItself(1566);
  }

  // ----------------------------------------------------------------- views

  predicate HasStatusIn(r: Ride, statuses: set<Status>)
  {
    r.status in statuses
  }

  predicate OwnedBy(r: Ride, userId: string)
  {
    r.userId == userId
  }

  predicate AcceptedByDriver(r: Ride, driverId: string)
  {
    r.acceptedBy == Some(driverId)
  }

  /** The pickup or dropoff address includes the term, ignoring case. */
  predicate AddressMatches(r: Ride, term: string)
  {
    Text.IncludesIgnoringCase(r.pickup.address, term) ||
    Text.IncludesIgnoringCase(r.dropoff.address, term)
  }

  /** The address search ignores the case of the term: two terms that differ
      only in case match the same rides. */
  lemma {:induction false} AddressMatchesIgnoresCase(r: Ride, term: string, term': string)
    requires Text.Lower(term) == Text.Lower(term')
    ensures AddressMatches(r, term) <==> AddressMatches(r, term')
  {
    Text.IncludesIgnoresCase(r.pickup.address, r.pickup.address, term, term');
    Text.IncludesIgnoresCase(r.dropoff.address, r.dropoff.address, term, term');
  }

  /** The rides whose status is one of `statuses`, in ledger order. */
  function InStatus(rides: seq<Ride>, statuses: set<Status>): (r: seq<Ride>)
    ensures forall x :: x in r <==> x in rides && x.status in statuses
    ensures forall x :: multiset(r)[x] == if x.status in statuses then multiset(rides)[x] else 0
    ensures IsSubsequence(r, rides)
  {
    Filter(rides, HasStatusIn, statuses)
  }

  /** `availableRides`: the rides waiting for a driver. */
  function AvailableRides(rides: seq<Ride>): (r: seq<Ride>)
    ensures forall x :: x in r <==> x in rides && x.status == Pending
    ensures forall x :: multiset(r)[x] == if x.status == Pending then multiset(rides)[x] else 0
    ensures IsSubsequence(r, rides)
  {
    InStatus(rides, {Pending})
  }

  const ActiveGroup: set<Status> := {Accepted}
  const FinishedGroup: set<Status> := {Completed, Cancelled}

  /** The "active" tab of the passenger and driver pages: the accepted rides. */
  function ActiveRides(rides: seq<Ride>): (r: seq<Ride>)
    ensures forall x :: x in r <==> x in rides && x.status == Accepted
    ensures forall x :: multiset(r)[x] == if x.status == Accepted then multiset(rides)[x] else 0
  {
    InStatus(rides, ActiveGroup)
  }

  /** The "completed" tab of the passenger and driver pages: completed and
      cancelled rides together. */
  function FinishedRides(rides: seq<Ride>): (r: seq<Ride>)
    ensures forall x :: x in r <==> x in rides && (x.status == Completed || x.status == Cancelled)
    ensures forall x :: multiset(r)[x] == if x.status == Completed || x.status == Cancelled then multiset(rides)[x] else 0
  {
    InStatus(rides, FinishedGroup)
  }

  predicate IsRole(user: Option<User>, role: string)
  {
    user.Some? && user.value.role == role
  }

  /** `userRides`: a passenger's own rides; empty for anyone else. */
  function UserRides(rides: seq<Ride>, user: Option<User>): (r: seq<Ride>)
    ensures !IsRole(user, UserRole) ==> r == []
    ensures forall x :: x in r <==> IsRole(user, UserRole) && x in rides && x.userId == user.value.id
    ensures forall x :: multiset(r)[x] == if IsRole(user, UserRole) && x.userId == user.value.id then multiset(rides)[x] else 0
    ensures IsSubsequence(r, rides)
  {
    if IsRole(user, UserRole) then Filter(rides, OwnedBy, user.value.id) else []
  }

  /** `driverRides`: the rides a driver has accepted; empty for anyone else. */
  function DriverRides(rides: seq<Ride>, user: Option<User>): (r: seq<Ride>)
    ensures !IsRole(user, DriverRole) ==> r == []
    ensures forall x :: x in r <==> IsRole(user, DriverRole) && x in rides && x.acceptedBy == Some(user.value.id)
    ensures forall x :: multiset(r)[x] == if IsRole(user, DriverRole) && x.acceptedBy == Some(user.value.id) then multiset(rides)[x] else 0
    ensures IsSubsequence(r, rides)
  {
    if IsRole(user, DriverRole) then Filter(rides, AcceptedByDriver, user.value.id) else []
  }

  /** Under the ledger invariant no ride is both available and someone's
      accepted ride. */
  lemma AvailableAndDriverRidesDisjoint(rides: seq<Ride>, user: Option<User>)
    requires LedgerInvariant(rides)
    ensures forall x :: x in AvailableRides(rides) ==> x !in DriverRides(rides, user)
  {
  }

  // ------------------------------------------------------------ operations

  const PhonePlaceholder: string := "+55 11 99999-9999"

  /** The ride `createRideRequest` appends; `id` stands for the random id. */
  function NewRide(user: User, id: string, pickup: Location, dropoff: Location,
                   distance: real, now: Timestamp): (r: Ride)
    ensures r.status == Pending && r.acceptedBy.None? && r.acceptedAt.None? && r.completedAt.None?
    ensures r.id == id && r.userId == user.id && r.userName == user.name && r.createdAt == now
    ensures r.pickup == pickup && r.dropoff == dropoff && r.distance == distance
    ensures r.userPhone == Some(PhonePlaceholder) && r.route.None?
    ensures r.price == PriceFor(distance)
  {
    Ride(id, user.id, user.name, Some(PhonePlaceholder), pickup, dropoff,
         distance, PriceFor(distance), Pending, now, None, None, None, None)
  }

  /** The field updates that accept, complete and cancel spread over a ride. */
  datatype RideChange = Accept(driverId: string, at: Timestamp) | Complete(at: Timestamp) | Cancel

  /** Two records of the same trip: they differ at most in status, driver
      and lifecycle timestamps. */
  ghost predicate SameTrip(a: Ride, b: Ride)
  {
    a.id == b.id && a.userId == b.userId && a.userName == b.userName &&
    a.userPhone == b.userPhone && a.pickup == b.pickup && a.dropoff == b.dropoff &&
    a.distance == b.distance && a.price == b.price && a.createdAt == b.createdAt &&
    a.route == b.route
  }

  /** One ride after a change: the trip is kept; accept sets the status to
      accepted with the driver and the time; complete sets it to completed
      with the time; cancel sets it to cancelled. Whatever a change does not
      name is left as it was. */
  function Apply(ride: Ride, change: RideChange): (r: Ride)
    ensures SameTrip(r, ride)
    ensures r.status != Pending
    ensures change.Accept? ==>
              && r.status == Accepted
              && r.acceptedBy == Some(change.driverId)
              && r.acceptedAt == Some(change.at)
              && r.completedAt == ride.completedAt
    ensures change.Complete? ==>
              && r.status == Completed
              && r.completedAt == Some(change.at)
              && r.acceptedBy == ride.acceptedBy
              && r.acceptedAt == ride.acceptedAt
    ensures change.Cancel? ==>
              && r.status == Cancelled
              && r.acceptedBy == ride.acceptedBy
              && r.acceptedAt == ride.acceptedAt
              && r.completedAt == ride.completedAt
  {
    match change
    case Accept(driverId, at) =>
      ride.(status := Accepted, acceptedBy := Some(driverId), acceptedAt := Some(at))
    case Complete(at) =>
      ride.(status := Completed, completedAt := Some(at))
    case Cancel =>
      ride.(status := Cancelled)
  }

  /** The list rebuilt ride by ride: every ride with the id gets the change,
      every other ride is kept, each at its own position. */
  function UpdateById(rides: seq<Ride>, rideId: string, change: RideChange): (r: seq<Ride>)
    ensures |r| == |rides|
    ensures forall i :: 0 <= i < |rides| && rides[i].id != rideId ==> r[i] == rides[i]
    ensures forall i :: 0 <= i < |rides| && rides[i].id == rideId ==> r[i] == Apply(rides[i], change)
    decreases |rides|
  {
    if rides == [] then []
    else
      var first := if rides[0].id == rideId then Apply(rides[0], change) else rides[0];
      [first] + UpdateById(rides[1..], rideId, change)
  }

  /** An id no ride has leaves the ledger as it was. */
  lemma UpdateUnknownId(rides: seq<Ride>, rideId: string, change: RideChange)
    requires forall i :: 0 <= i < |rides| ==> rides[i].id != rideId
    ensures UpdateById(rides, rideId, change) == rides
  {
  }

  /** With distinct ids, exactly the ride at index `j` is changed. */
  lemma UpdateChangesOneRide(rides: seq<Ride>, j: int, change: RideChange)
    requires DistinctIds(rides) && 0 <= j < |rides|
    ensures var r := UpdateById(rides, rides[j].id, change);
      r == rides[j := Apply(rides[j], change)]
  {
  }

  /** Updates keep every trip, hence the ids and the prices. */
  lemma UpdateKeepsTrips(rides: seq<Ride>, rideId: string, change: RideChange)
    ensures var r := UpdateById(rides, rideId, change);
      forall i :: 0 <= i < |rides| ==> SameTrip(r[i], rides[i])
    ensures DistinctIds(rides) ==> DistinctIds(UpdateById(rides, rideId, change))
    ensures PricesFollowRate(rides) ==> PricesFollowRate(UpdateById(rides, rideId, change))
  {
    var r := UpdateById(rides, rideId, change);
    forall i | 0 <= i < |rides|
      ensures SameTrip(r[i], rides[i])
    {
      if rides[i].id == rideId {
        assert SameTrip(Apply(rides[i], change), rides[i]);
      }
    }
  }

  /** Accept, complete and cancel keep the ledger invariant. */
  lemma UpdateKeepsInvariant(rides: seq<Ride>, rideId: string, change: RideChange)
    requires LedgerInvariant(rides)
    ensures LedgerInvariant(UpdateById(rides, rideId, change))
  {
    var r := UpdateById(rides, rideId, change);
    forall i | 0 <= i < |r|
      ensures (r[i].acceptedBy.Some? ==> r[i].status != Pending) &&
              (r[i].acceptedBy.Some? <==> r[i].acceptedAt.Some?)
    {
      if rides[i].id == rideId {
        assert r[i] == Apply(rides[i], change);
      }
    }
  }

  /** Creating a ride keeps the invariant, keeps ids distinct when the new
      id is fresh, and charges the rate. */
  lemma CreateKeepsInvariant(rides: seq<Ride>, user: User, id: string, pickup: Location,
                             dropoff: Location, distance: real, now: Timestamp)
    ensures var r := rides + [NewRide(user, id, pickup, dropoff, distance, now)];
      (LedgerInvariant(rides) ==> LedgerInvariant(r)) &&
      (DistinctIds(rides) && (forall i :: 0 <= i < |rides| ==> rides[i].id != id) ==> DistinctIds(r)) &&
      (PricesFollowRate(rides) ==> PricesFollowRate(r))
  {
  }

  /** Accepting an already accepted ride hands it to the new driver: the
      first acceptance is not final. */
  lemma AcceptOverridesEarlierDriver(ride: Ride, d1: string, d2: string, t1: Timestamp, t2: Timestamp)
    requires d1 != d2
    ensures var twice := UpdateById(UpdateById([ride], ride.id, Accept(d1, t1)), ride.id, Accept(d2, t2));
      twice[0].acceptedBy == Some(d2) && twice[0].status == Accepted
  {
  }

  /** Completing or cancelling does not check the status: a pending ride
      that nobody accepted can be completed directly. */
  lemma CompleteSkipsAcceptance(ride: Ride, at: Timestamp)
    requires ride.status == Pending && ride.acceptedBy.None?
    ensures var r := UpdateById([ride], ride.id, Complete(at));
      r[0].status == Completed && r[0].acceptedBy.None?
  {
  }

  // ----------------------------------------------------------------- state

  /** The provider's `rides` state. Every operation replaces the whole list;
      writing it back to local storage and the notifications are not
      modelled. */
  class RideLedger {
    var rides: seq<Ride>

    /** Start-up: the stored list if local storage has one, the sample rides
        otherwise. */
    constructor (stored: Option<seq<Ride>>, now: Timestamp)
      ensures rides == (if stored.Some? then stored.value else SampleRides(now))
      ensures stored.None? ==> LedgerInvariant(rides) && DistinctIds(rides) && PricesFollowRate(rides)
    {
      if stored.Some? {
        rides := stored.value;
      } else {
        rides := SampleRides(now);
        SampleRidesAreConsistent(now);
      }
    }

    /** Appends a pending ride for whoever is logged in; `newId` and `now`
        stand for the random id and the clock. No role or balance is checked. */
    method CreateRideRequest(session: Auth.Session, pickup: Location, dropoff: Location,
                             distance: real, newId: string, now: Timestamp)
      modifies this
      ensures session.user.None? ==> rides == old(rides)
      ensures session.user.Some? ==>
        rides == old(rides) + [NewRide(session.user.value, newId, pickup, dropoff, distance, now)]
      ensures LedgerInvariant(old(rides)) ==> LedgerInvariant(rides)
    {
      if session.user.None? {
        return;
      }
      CreateKeepsInvariant(rides, session.user.value, newId, pickup, dropoff, distance, now);
      rides := rides + [NewRide(session.user.value, newId, pickup, dropoff, distance, now)];
    }

    method AcceptRide(session: Auth.Session, rideId: string, now: Timestamp)
      modifies this
      ensures !IsRole(session.user, DriverRole) ==> rides == old(rides)
      ensures IsRole(session.user, DriverRole) ==>
        rides == UpdateById(old(rides), rideId, Accept(session.user.value.id, now))
      ensures LedgerInvariant(old(rides)) ==> LedgerInvariant(rides)
    {
      if !IsRole(session.user, DriverRole) {
        return;
      }
      if LedgerInvariant(rides) {
        UpdateKeepsInvariant(rides, rideId, Accept(session.user.value.id, now));
      }
      rides := UpdateById(rides, rideId, Accept(session.user.value.id, now));
    }

    method CompleteRide(session: Auth.Session, rideId: string, now: Timestamp)
      modifies this
      ensures !IsRole(session.user, DriverRole) ==> rides == old(rides)
      ensures IsRole(session.user, DriverRole) ==> rides == UpdateById(old(rides), rideId, Complete(now))
      ensures LedgerInvariant(old(rides)) ==> LedgerInvariant(rides)
    {
      if !IsRole(session.user, DriverRole) {
        return;
      }
      if LedgerInvariant(rides) {
        UpdateKeepsInvariant(rides, rideId, Complete(now));
      }
      rides := UpdateById(rides, rideId, Complete(now));
    }

    /** Anyone may cancel any ride, whatever its status. */
    method CancelRide(rideId: string)
      modifies this
      ensures rides == UpdateById(old(rides), rideId, Cancel)
      ensures LedgerInvariant(old(rides)) ==> LedgerInvariant(rides)
    {
      if LedgerInvariant(rides) {
        UpdateKeepsInvariant(rides, rideId, Cancel);
      }
      rides := UpdateById(rides, rideId, Cancel);
    }
  }
}
