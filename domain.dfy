/** The records the application passes around: users, locations, routes and
    ride requests. Numbers are exact reals; timestamps are milliseconds since
    the epoch (the application renders them as ISO strings). */
module Domain {

  datatype Option<+T> = None | Some(value: T)

  /** Milliseconds since the epoch, the value behind a JavaScript Date. */
  type Timestamp = int

  /** The three role strings the application knows. A registered user may
      carry any other string, so a role stays a string. */
  const AdminRole: string := "admin"
  const UserRole: string := "user"
  const DriverRole: string := "driver"

  datatype User = User(
    id: string,
    name: string,
    email: string,
    role: string,
    avatar: Option<string>,
    accountBalance: Option<real>)

  datatype Location = Location(longitude: real, latitude: real, address: string)

  /** A polyline point; the source stores it as the pair [longitude, latitude]. */
  datatype Point = Point(longitude: real, latitude: real)

  datatype Route = Route(distance: real, duration: int, coordinates: seq<Point>)

  /** The four states a ride request can be in; there are no others. */
  datatype Status = Pending | Accepted | Completed | Cancelled

  datatype Ride = Ride(
    id: string,
    userId: string,
    userName: string,
    userPhone: Option<string>,
    pickup: Location,
    dropoff: Location,
    distance: real,
    price: real,
    status: Status,
    createdAt: Timestamp,
    acceptedBy: Option<string>,
    acceptedAt: Option<Timestamp>,
    completedAt: Option<Timestamp>,
    route: Option<Route>)
}
