# Ride Finder Buddy — a verified model of its ride ledger and views

Ride Finder Buddy is a mock ride-hailing web application. Passengers
request rides, drivers accept and complete them, and an administrator
watches the statistics. Everything runs in the browser. The state lives
in two React context providers that persist to local storage:

- the **session** (`src/context/AuthContext.tsx`): who is logged in,
  demo login by role, registration, and a signed account balance;
- the **ride ledger** (`src/context/RidesContext.tsx`): one list of ride
  requests, replaced as a whole by create / accept / complete / cancel,
  with three role-dependent views.

Around them sit a simulated geocoding and routing service
(`src/services/geocodingService.ts`). The passenger, driver and admin
pages (`UserRides.tsx`, `DriverRides.tsx`, `AdminDashboard.tsx`) filter
and aggregate the ledger.

The Dafny project has one module per source file, plus three support modules:

| module | file | models |
|---|---|---|
| `Domain` | `domain.dfy` | the records of `src/types/index.ts`: users, locations, routes, ride requests, the four statuses |
| `Seqs` | `seqs.dfy` | order-preserving `filter` and additive `reduce` over lists |
| `Text` | `text.dfy` | the JavaScript string operations used: lower-casing, `includes`, `split`, the digit test, first-match `replace` |
| `Rounding` | `rounding.dfy` | the numeric value of `toFixed(0)` and `toFixed(2)` (round half away from zero) |
| `Auth` | `auth.dfy` | the session provider, as class `Session` |
| `Rides` | `rides.dfy` | the ride provider, as class `RideLedger`, and its views |
| `Geocoding` | `geocoding.dfy` | address formatting/parsing, the city lookup and the route estimate |
| `UserRidesView` | `user_rides.dfy` | the passenger's search, status filter and tabs |
| `DriverRidesView` | `driver_rides.dfy` | the driver's search and tabs |
| `AdminDashboard` | `admin_dashboard.dfy` | the admin statistics and the filtered ride list |

The providers' mutable state becomes a class field: `Session.user` and
`RideLedger.rides`. Each operation is a method whose `ensures` gives the
new state as a pure function of the old one (`UpdateById`, `NewRide`,
`Credited`, `Debited`, `DemoUserFor`, `NewUser`). The central invariant is
`Rides.LedgerInvariant`: a ride carrying a driver is never pending, and
carries an acceptance time exactly when it carries a driver. The sample
data satisfies it and every operation keeps it. The loops in the source
are methods with invariants: `calculateRoute` builds the polyline with a
`for` loop, and `geocodeAddress` scans the city table with an early return.

Numbers are exact reals. Timestamps are integer milliseconds, and the
current time is a parameter `now`. The ids and coordinates the source
draws from `Math.random` are parameters too.

### What the ride lifecycle does not do

The ride ledger is a plain list, and its operations check very little.
The code has:

- no en-route, arrived or in-progress state;
- no verification code at pickup;
- no cancellation fee;
- no balance check before a ride is requested;
- no rule that the first driver to accept wins.

The model follows the code:

- there are four statuses (`src/types/index.ts:33`);
- `acceptRide` and `completeRide` check only that the caller is a driver;
- `cancelRide` checks nothing;
- `createRideRequest` checks only that someone is logged in;
- the duration assumes 30 km/h.

`Rides.AcceptOverridesEarlierDriver` shows that a second driver's accept
takes the ride over. `Rides.CompleteSkipsAcceptance` shows that a pending
ride can be completed directly.

The `User` interface in `src/types/index.ts` has no `accountBalance`, but
`AuthContext.tsx` reads and writes one. The model follows
`AuthContext.tsx`.

## Model

| member | source | states |
|---|---|---|
| Seqs.Filter | src/context/RidesContext.tsx:116-124 | `filter` keeps every element satisfying the predicate as often as it occurs and drops every other element (occurrence counts), in their order (a subsequence) |
| Seqs.FilterKeepsAll | src/pages/user/UserRides.tsx:35-45 | a filter whose predicate holds of every element returns the list unchanged |
| Seqs.FilterDropsAll | src/pages/admin/AdminDashboard.tsx:60-66 | a filter whose predicate holds of no element returns the empty list |
| Seqs.FilterSameVerdicts | src/pages/user/UserRides.tsx:35-45 | two predicates that agree on every element give the same filtered list |
| Seqs.SubsequenceTransitive | src/pages/admin/AdminDashboard.tsx:74-100 | filtering a filtered list still yields a subsequence of the original |
| Seqs.TimesIsProduct | src/pages/admin/AdminDashboard.tsx:69-71 | n copies of x added up equal n times x |
| Seqs.SumNonNegative | src/pages/admin/AdminDashboard.tsx:64-66 | a sum of non-negative terms is non-negative |
| Seqs.FilterSplitLength | src/pages/user/UserRides.tsx:48-52 | when a criterion is the disjoint union of two others, the filtered lengths add up |
| Seqs.SumBounds | src/pages/admin/AdminDashboard.tsx:64-66 | a sum of n terms each in [lo, hi] lies between n·lo and n·hi |
| Seqs.SumOfSubsequence | src/pages/admin/AdminDashboard.tsx:227-229 | with non-negative terms, a subsequence sums to no more than the whole |
| Text.Lower | src/pages/user/UserRides.tsx:37-38 | `toLowerCase` keeps the length, leaves no upper-case letter, maps each upper-case letter to its lower-case partner and keeps every other character |
| Text.LowerIdempotent | src/pages/user/UserRides.tsx:37-38 | lower-casing twice is lower-casing once |
| Text.IncludesIgnoresCase | src/pages/user/UserRides.tsx:37-38 | the case-insensitive `includes` gives the same answer for texts and terms that differ only in case |
| Text.IncludesLowerTerm | src/pages/driver/DriverRides.tsx:46-47 | a term and its lower-cased form find the same strings |
| Text.IncludesEmpty | src/pages/user/UserRides.tsx:37-38 | every string includes the empty term |
| Text.Split | src/services/geocodingService.ts:105 | `split` returns at least one part, and joining the parts with the separator gives the input back |
| Text.JoinContainsThirdPart | src/services/geocodingService.ts:104-107 | the third of three or more parts occurs in their join right after the first two parts and separators |
| Text.SplitWithoutSeparator | src/services/geocodingService.ts:105 | a string with no occurrence of the separator splits into itself alone |
| Text.SplitAfterFirstPart | src/services/geocodingService.ts:105 | splitting `p + sep + rest`, where `sep` starts nowhere inside `p`, gives `p` followed by the parts of `rest` |
| Text.SplitOnCharCount | src/services/geocodingService.ts:14 | splitting on one character yields one more part than there are occurrences of it |
| Text.ReplaceFirstSpace | src/context/AuthContext.tsx:121 | `replace(' ', '+')` keeps the length, turns the first space into '+' and keeps every other character, later spaces included; without a space the name is unchanged |
| Text.FirstSpace | src/context/AuthContext.tsx:121 | the index found holds a space and no earlier character is a space; it is the length when there is no space |
| Rounding.RoundHalfAway | src/pages/admin/AdminDashboard.tsx:236 | `toFixed(0)` yields an integer within one half of its argument, with the argument's sign |
| Rounding.RoundMonotone | src/pages/admin/AdminDashboard.tsx:236 | `toFixed(0)` preserves order |
| Rounding.RoundWithin | src/pages/admin/AdminDashboard.tsx:236 | a value between two integers rounds to an integer between them |
| Rounding.RoundToCents | src/context/RidesContext.tsx:134 | `toFixed(2)` yields a whole number of cents within half a cent of its argument, with the argument's sign |
| Rounding.RoundToCentsKeepsCents | src/context/RidesContext.tsx:134 | an amount already in whole cents is unchanged by rounding |
| Rounding.RoundToCentsIdempotent | src/context/RidesContext.tsx:134 | rounding a rounded amount changes nothing |
| Rounding.RoundToCentsMonotone | src/context/RidesContext.tsx:134 | rounding to cents preserves order |
| Auth.DemoUserFor | src/context/AuthContext.tsx:83-89 | login picks one of the three demo accounts: the admin or driver account for those roles and the plain user account for any other string; each has a balance |
| Auth.InitialBalance | src/context/AuthContext.tsx:122 | a new account opens with 500 exactly for drivers and 100 for every other role |
| Auth.NewUser | src/context/AuthContext.tsx:116-123 | a registered account has the given id, name, email and role, the avatar URL of its name and the opening balance of its role |
| Auth.HasDebt | src/context/AuthContext.tsx:166-169 | nobody logged in or a missing balance is no debt; otherwise debt exactly when the balance is negative |
| Auth.InitialBalanceMatchesDemo | src/context/AuthContext.tsx:122 | a registered account opens with the demo balance of its role exactly when the role is not admin |
| Auth.Credited | src/context/AuthContext.tsx:138-149 | `addCredit` raises the balance (missing = 0) by the amount and changes no other field |
| Auth.Debited | src/context/AuthContext.tsx:152-163 | `deductCredit` lowers the balance by the amount, with no lower bound, and changes no other field |
| Auth.CreditThenDebitRestores | src/context/AuthContext.tsx:143-157 | credit then debit of one amount restores the balance and the record |
| Auth.DebitIntoDebt | src/context/AuthContext.tsx:166-169 | after a debit, `hasDebt` holds exactly when the amount exceeded the balance |
| Auth.FreshAccountsHaveNoDebt | src/context/AuthContext.tsx:116-123 | a freshly registered or demo account is not in debt |
| Auth.Session.constructor | src/context/AuthContext.tsx:64-71 | start-up restores the stored user and stops loading |
| Auth.Session.Login | src/context/AuthContext.tsx:73-101 | the user becomes the demo account for the role; email and password are ignored |
| Auth.Session.Logout | src/context/AuthContext.tsx:103-107 | nobody is logged in afterwards |
| Auth.Session.Register | src/context/AuthContext.tsx:109-135 | the user becomes a new account with the given role and the role's opening balance |
| Auth.Session.AddCredit | src/context/AuthContext.tsx:138-149 | no-op when logged out, otherwise the user is credited |
| Auth.Session.DeductCredit | src/context/AuthContext.tsx:152-163 | no-op when logged out, otherwise the user is debited |
| Rides.PriceFor | src/context/RidesContext.tsx:133-134 | the price is a whole number of cents within half a cent of 1.8 per km, and never negative for a non-negative distance |
| Rides.SampleRides | src/context/RidesContext.tsx:19-85 | three sample rides of the default passenger, created no later than now, priced above zero, pending, completed and accepted in that order |
| Rides.NewRide | src/context/RidesContext.tsx:136-147 | a new request is pending with no driver or timestamps beyond creation, carries the passenger, trip, placeholder phone and the rate-based price |
| Rides.PriceMonotone | src/context/RidesContext.tsx:133-134 | a longer ride never costs less |
| Rides.SampleRidesAreConsistent | src/context/RidesContext.tsx:19-85 | the sample rides satisfy the ledger invariant, have distinct ids, and are priced at the rate |
| Rides.InStatus | src/context/RidesContext.tsx:116 | exactly the rides with one of the given statuses, each as often as in the ledger, in ledger order |
| Rides.AvailableRides | src/context/RidesContext.tsx:116 | `availableRides` is exactly the pending rides, each as often as in the ledger, in order |
| Rides.ActiveRides | src/pages/user/UserRides.tsx:49 | the active tab (passenger and driver alike, `src/pages/driver/DriverRides.tsx:51`) holds exactly the accepted rides |
| Rides.FinishedRides | src/pages/driver/DriverRides.tsx:52-54 | the completed tab (passenger and driver alike, `src/pages/user/UserRides.tsx:50-52`) holds exactly the completed and cancelled rides |
| Rides.UserRides | src/context/RidesContext.tsx:118-120 | empty unless a passenger is logged in; otherwise exactly that passenger's rides, each as often as in the ledger |
| Rides.DriverRides | src/context/RidesContext.tsx:122-124 | empty unless a driver is logged in; otherwise exactly the rides that driver accepted, each as often as in the ledger |
| Rides.AddressMatchesIgnoresCase | src/pages/driver/DriverRides.tsx:46-47 | the pickup/dropoff search matches the same rides for terms that differ only in case |
| Rides.AvailableAndDriverRidesDisjoint | src/context/RidesContext.tsx:116-124 | under the invariant no ride is both available and a driver's |
| Rides.Apply | src/context/RidesContext.tsx:168-228 | accept sets the status to accepted with the driver and time, complete to completed with the time, cancel to cancelled; each keeps the trip and every field it does not set, and none leaves a ride pending |
| Rides.UpdateById | src/context/RidesContext.tsx:169-178 | the rebuilt list has the same length; rides with the id are changed, all others kept at their positions |
| Rides.UpdateUnknownId | src/context/RidesContext.tsx:169-178 | an id no ride has leaves the list unchanged |
| Rides.UpdateChangesOneRide | src/context/RidesContext.tsx:169-178 | with distinct ids exactly one ride is changed |
| Rides.UpdateKeepsTrips | src/context/RidesContext.tsx:169-228 | updates keep every trip, so distinct ids and rate-based prices survive |
| Rides.UpdateKeepsInvariant | src/context/RidesContext.tsx:169-228 | accept, complete and cancel preserve the ledger invariant |
| Rides.CreateKeepsInvariant | src/context/RidesContext.tsx:136-149 | appending a new ride preserves the invariant, distinct ids (for a fresh id) and rate-based prices |
| Rides.AcceptOverridesEarlierDriver | src/context/RidesContext.tsx:162-178 | a second accept replaces the first driver |
| Rides.CompleteSkipsAcceptance | src/context/RidesContext.tsx:191-206 | a pending, unaccepted ride can be completed directly |
| Rides.RideLedger.constructor | src/context/RidesContext.tsx:104-113 | start-up takes the stored list, or the sample rides, which satisfy the invariant |
| Rides.RideLedger.CreateRideRequest | src/context/RidesContext.tsx:126-160 | logged out: nothing changes; otherwise the new pending ride is appended and earlier rides are untouched |
| Rides.RideLedger.AcceptRide | src/context/RidesContext.tsx:162-189 | non-drivers change nothing; a driver's accept updates the matching rides; the invariant is kept |
| Rides.RideLedger.CompleteRide | src/context/RidesContext.tsx:191-217 | non-drivers change nothing; a driver completes the matching rides; the invariant is kept |
| Rides.RideLedger.CancelRide | src/context/RidesContext.tsx:219-239 | anyone cancels the matching rides; the invariant is kept |
| Geocoding.ExtractFormattedCity | src/services/geocodingService.ts:99-107 | extracting the city of a formatted address gives the city back when no part contains ", " |
| Geocoding.FormatCompleteAddress | src/services/geocodingService.ts:99-101 | the address starts with the street, ends with the city, and is as long as the three parts and two separators |
| Geocoding.ExtractCityFromAddress | src/services/geocodingService.ts:104-107 | the extracted city is always a substring of the address |
| Geocoding.ExtractCityNeedsSeparators | src/services/geocodingService.ts:104-107 | an address with at most one occurrence of ", " has no city part |
| Geocoding.IsCityLookup | src/services/geocodingService.ts:14 | an address is a city lookup exactly when it has at most one comma and no digit |
| Geocoding.FirstCityIn | src/services/geocodingService.ts:17-41 | the match found is a table city the address includes; none exactly when no city matches |
| Geocoding.FirstCityIsEarliest | src/services/geocodingService.ts:32-41 | the match found is the earliest matching table entry |
| Geocoding.RandomLocationBounds | src/services/geocodingService.ts:45-46 | the fallback location lies within 0.05 degrees of central São Paulo |
| Geocoding.GeocodeAddress | src/services/geocodingService.ts:5-57 | the address is passed through; a city lookup gets the first matching city's coordinates, anything else the random location |
| Geocoding.ScanCities | src/services/geocodingService.ts:32-41 | the scan returns the first city of the table whose name the address includes, or none |
| Geocoding.CalculateRoute | src/services/geocodingService.ts:60-96 | distance is road distance rounded to cents; duration is whole seconds at 30 km/h; 11 points, point i at fraction i/10 |
| Geocoding.PointAt | src/services/geocodingService.ts:83-86 | each of the points 0 to 10 lies between origin and destination in both coordinates |
| Geocoding.InterpolationBetween | src/services/geocodingService.ts:84-85 | a fraction in [0, 1] of the way from a to b lies between a and b |
| Geocoding.PolylineEndpoints | src/services/geocodingService.ts:82-86 | the polyline starts at the origin and ends at the destination |
| Geocoding.PolylineEvenlySpaced | src/services/geocodingService.ts:83-85 | consecutive points are a tenth of the way apart |
| Geocoding.DurationBounds | src/services/geocodingService.ts:73-76 | the duration is non-negative and within one second of the exact travel time |
| UserRidesView.FilteredRides | src/pages/user/UserRides.tsx:35-45 | a ride is shown exactly when an address matches the search and the status passes the filter, as often as in the list; order is kept |
| UserRidesView.UnfilteredShowsAll | src/pages/user/UserRides.tsx:35-45 | an empty search with "all" statuses shows every ride |
| UserRidesView.SearchIgnoresCase | src/pages/user/UserRides.tsx:37-38 | search terms that differ only in case show the same rides |
| UserRidesView.PendingRides | src/pages/user/UserRides.tsx:48 | exactly the pending rides, each as often as in the list |
| UserRidesView.TabsPartitionRides | src/pages/user/UserRides.tsx:48-52 | the three tabs are disjoint, cover all rides, and their counts add up |
| DriverRidesView.FilteredAvailableRides | src/pages/driver/DriverRides.tsx:45-48 | exactly the available rides whose pickup or dropoff matches the search, each as often as in the list, in order |
| DriverRidesView.EmptySearchShowsAll | src/pages/driver/DriverRides.tsx:45-48 | an empty search shows every available ride |
| DriverRidesView.SearchIgnoresCase | src/pages/driver/DriverRides.tsx:46-47 | search terms that differ only in case show the same rides |
| DriverRidesView.TabsSplitDriverRides | src/pages/driver/DriverRides.tsx:51-54 | under the invariant each driver ride is in exactly one tab and the counts add up |
| DriverRidesView.PendingAssignedRideInNoTab | src/pages/driver/DriverRides.tsx:51-54 | without the invariant a pending ride carrying a driver falls in neither tab |
| AdminDashboard.CompletedCount | src/pages/admin/AdminDashboard.tsx:60 | the completed count is at most the number of rides, and zero exactly when no ride is completed |
| AdminDashboard.PendingCount | src/pages/admin/AdminDashboard.tsx:61 | the pending count is at most the number of rides, and zero exactly when no ride is pending |
| AdminDashboard.CountsWithinTotal | src/pages/admin/AdminDashboard.tsx:59-61 | completed plus pending rides never outnumber all rides |
| AdminDashboard.TotalRevenue | src/pages/admin/AdminDashboard.tsx:64-66 | revenue is zero when no ride is completed, and never negative when no completed price is |
| AdminDashboard.CompletedRevenueNonNegative | src/pages/admin/AdminDashboard.tsx:64-66 | completed rides with non-negative prices add up to a non-negative total |
| AdminDashboard.NoCompletedRideNoRevenue | src/pages/admin/AdminDashboard.tsx:60-66 | with no completed ride the count and the revenue are zero |
| AdminDashboard.RevenueAtMostAllPrices | src/pages/admin/AdminDashboard.tsx:64-66 | with non-negative prices revenue lies between zero and the sum of all prices |
| AdminDashboard.RevenueBounds | src/pages/admin/AdminDashboard.tsx:64-66 | revenue lies between the completed count times the lowest and times the highest completed price |
| AdminDashboard.CompletedPricesWithin | src/pages/admin/AdminDashboard.tsx:64-66 | every completed ride kept by the revenue filter has a price within bounds that hold for all completed rides |
| AdminDashboard.AvgRidePrice | src/pages/admin/AdminDashboard.tsx:69-71 | zero with no completed ride; otherwise a whole number of cents within half a cent of revenue per completed ride |
| AdminDashboard.QuotientBounds | src/pages/admin/AdminDashboard.tsx:69-71 | a total between m·lo and m·hi divided by m lies between lo and hi |
| AdminDashboard.RoundedQuotientBounds | src/pages/admin/AdminDashboard.tsx:69-71 | the rounded average of a total bounded by n copies of lo and hi lies between the rounded bounds |
| AdminDashboard.AveragePriceWithinRange | src/pages/admin/AdminDashboard.tsx:69-71 | the average price lies between the rounded cheapest and dearest completed prices |
| AdminDashboard.SearchRides | src/pages/admin/AdminDashboard.tsx:91-97 | exactly the rides whose passenger name or an address matches, each as often as in the list, as a subsequence |
| AdminDashboard.SearchMatchesIgnoresCase | src/pages/admin/AdminDashboard.tsx:93-95 | a ride matches the admin search for a term exactly when it matches for any term that differs only in case |
| AdminDashboard.SearchIgnoresCase | src/pages/admin/AdminDashboard.tsx:91-97 | search terms that differ only in case keep the same rides |
| AdminDashboard.EmptySearchKeepsAll | src/pages/admin/AdminDashboard.tsx:91-97 | the search step with an empty term would keep every ride |
| AdminDashboard.GetFilteredRides | src/pages/admin/AdminDashboard.tsx:74-100 | exactly the rides created since the cut-off that match the search, each as often as in the ledger, as a subsequence |
| AdminDashboard.FilterIgnoresCase | src/pages/admin/AdminDashboard.tsx:91-97 | the filtered list is the same for search terms that differ only in case |
| AdminDashboard.UnfilteredIsEverything | src/pages/admin/AdminDashboard.tsx:74-100 | all time and no search gives every ride, in order |
| AdminDashboard.TotalDistance | src/pages/admin/AdminDashboard.tsx:227-229 | the total distance of an empty list is zero and never negative when no distance is |
| AdminDashboard.FilteredDistanceAtMostAll | src/pages/admin/AdminDashboard.tsx:227-229 | the filtered total distance is between zero and the total of all rides |
| AdminDashboard.ConversionRate | src/pages/admin/AdminDashboard.tsx:235-237 | the rate is a whole percentage between 0 and 100; 0 with no completed ride, 100 when every listed ride is completed |
| AdminDashboard.PercentBounds | src/pages/admin/AdminDashboard.tsx:236 | a share of a positive whole, times 100, lies between 0 and 100, with 0 and 100 at the ends |
| AdminDashboard.ConversionRateBounds | src/pages/admin/AdminDashboard.tsx:235-237 | the rate is between 0 and 100; 100 when every ride is completed, 0 when none is or the list is empty |

## Left out

- Persistence: local storage reads and writes. The stored values at start-up are constructor parameters.
- Notifications: toast calls.
- Simulated latency: the `setTimeout` delays before login and registration.
- Error paths: the `try`/`catch` blocks around operations that cannot throw in the model. This includes the `null` result of `geocodeAddress`.
- React behaviour: stale closures and batched state updates. Operations run one after another.
- Randomness: the random ids and the random coordinates are parameters. Freshness of a new ride id is assumed only by `Rides.CreateKeepsInvariant`.
- Clock: `now` is a parameter.
- Admin time filter: the calendar arithmetic that finds the start of today, the week or the month is not modelled. The filter is given that instant as `Since(start)`.
- Timestamp format: ISO strings are modelled as the millisecond values they encode.
- Haversine: the great-circle distance (trigonometry) is the `greatCircleKm` input of `Geocoding.CalculateRoute`.
- Floating point: numbers are exact reals, so binary-float rounding quirks of `toFixed` and `parseFloat` are not modelled.
- Display strings: `avgRidePrice` and the conversion rate are shown as `toFixed` strings, and are modelled as their numeric values. The one-decimal display of distances and total distance is not modelled.
- Text.Lower: lower-cases ASCII letters only, because Unicode case mapping is not modelled.
- Admin user statistics: the admin page's mock user table, its counts and its user search are static display data.
- `Route`: the model has the field, but no operation of the ledger sets it, as in the source.
- UI: JSX, tabs, dialogs, navigation, map components and the Mapbox context are out of scope.
