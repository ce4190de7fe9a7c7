/** The simulated geocoding and routing service
    (`src/services/geocodingService.ts`): address formatting and parsing, a
    fixed table of city coordinates, and a straight-line route estimate. The
    great-circle distance (Haversine, trigonometry) and `Math.random` are
    inputs. */
module Geocoding {
  import opened Domain
  import Text
  import Rounding

  // ---------------------------------------------------------------- addresses

  const Separator: string := ", "

  /** `formatCompleteAddress`: "street, number, city". */
  function FormatCompleteAddress(street: string, number: string, city: string): (address: string)
    ensures |address| == |street| + |number| + |city| + 2 * |Separator|
    ensures address[..|street|] == street && address[|address| - |city|..] == city
  {
    street + Separator + number + Separator + city
  }

  /** `extractCityFromAddress`: the third ", "-separated part, or "" when
      there are fewer than three. */
  function ExtractCityFromAddress(address: string): (city: string)
    ensures Text.Contains(address, city)
  {
    var parts := Text.Split(address, Separator);
    if |parts| > 2 then
      Text.JoinContainsThirdPart(parts, Separator);
      parts[2]
    else
      assert Text.OccursAt(address, "", 0);
      ""
  }

  /** No occurrence of ", " starts inside `p`, even one that would run on
      into a following ", ". */
  lemma NoSeparatorBefore(p: string, rest: string)
    requires !Text.Contains(p, Separator)
    ensures forall k :: 0 <= k < |p| ==> !Text.OccursAt(p + Separator + rest, Separator, k)
  {
    var s := p + Separator + rest;
    forall k | 0 <= k < |p|
      ensures !Text.OccursAt(s, Separator, k)
    {
      if k + 2 <= |p| {
        assert !Text.OccursAt(p, Separator, k);
        assert s[k..k + 2] == p[k..k + 2];
      } else {
        assert s[k + 1] == ',';
        assert s[k..k + 2][1] == ',';
      }
    }
  }

  /** Extracting the city from a formatted address gives the city back when
      no component contains ", ". */
  lemma {:induction false} ExtractFormattedCity(street: string, number: string, city: string)
    requires !Text.Contains(street, Separator)
    requires !Text.Contains(number, Separator)
    requires !Text.Contains(city, Separator)
    ensures ExtractCityFromAddress(FormatCompleteAddress(street, number, city)) == city
  {
    var rest := number + Separator + city;
    assert FormatCompleteAddress(street, number, city) == street + Separator + rest;
    NoSeparatorBefore(street, rest);
    Text.SplitAfterFirstPart(street, Separator, rest);
    NoSeparatorBefore(number, city);
    Text.SplitAfterFirstPart(number, Separator, city);
    forall k | 0 <= k < |city|
      ensures !Text.OccursAt(city, Separator, k)
    {
      if k + 2 <= |city| {
        assert !Text.OccursAt(city, Separator, k);
      }
    }
    Text.SplitWithoutSeparator(city, Separator);
  }

  /** An address with at most one ", " has fewer than three parts, so no
      city part: "Rua Augusta, 500" gives "". */
  lemma {:induction false} ExtractCityNeedsSeparators(address: string)
    requires forall k1, k2 :: Text.OccursAt(address, Separator, k1) && Text.OccursAt(address, Separator, k2) ==> k1 == k2
    ensures ExtractCityFromAddress(address) == ""
  {
    if k :| Text.OccursAt(address, Separator, k) {
      var p := address[..k];
      var rest := address[k + 2..];
      assert address == p + Separator + rest;
      forall j | 0 <= j < |p|
        ensures !Text.OccursAt(p + Separator + rest, Separator, j)
      {
      }
      Text.SplitAfterFirstPart(p, Separator, rest);
      forall j | 0 <= j < |rest|
        ensures !Text.OccursAt(rest, Separator, j)
      {
        if j + 2 <= |rest| {
          assert address[k + 2 + j..k + 2 + j + 2] == rest[j..j + 2];
          assert Text.OccursAt(rest, Separator, j) ==> Text.OccursAt(address, Separator, k + 2 + j);
        }
      }
      Text.SplitWithoutSeparator(rest, Separator);
    } else {
      Text.SplitWithoutSeparator(address, Separator);
    }
  }

  // ----------------------------------------------------------------- geocode

  datatype City = City(name: string, latitude: real, longitude: real)

  /** The fixed city coordinates, in the order the lookup tries them. */
  const CityTable: seq<City> := [
    City("São Paulo", -23.5505, -46.6333),
    City("Rio de Janeiro", -22.9068, -43.1729),
    City("Belo Horizonte", -19.9167, -43.9345),
    City("Salvador", -12.9714, -38.5014),
    City("Curitiba", -25.4289, -49.2671),
    City("Porto Alegre", -30.0346, -51.2177),
    City("Campinas", -22.9071, -47.0625),
    City("Santos", -23.9619, -46.3322),
    City("Guarulhos", -23.4543, -46.5337),
    City("Ribeirão Preto", -21.1775, -47.8102)
  ]

  /** An address counts as a city lookup when it has at most two
      comma-separated parts and no digit, that is, at most one comma. */
  function IsCityLookup(address: string): (lookup: bool)
    ensures lookup <==> Text.CountChar(address, ',') <= 1 && !Text.HasDigit(address)
  {
    Text.SplitOnCharCount(address, ',');
    |Text.Split(address, ",")| <= 2 && !Text.HasDigit(address)
  }

  /** The first city of `table` whose name the address includes. */
  function FirstCityIn(address: string, table: seq<City>): (r: Option<City>)
    ensures r.Some? ==> r.value in table && Text.Contains(address, r.value.name)
    ensures r.None? <==> forall i :: 0 <= i < |table| ==> !Text.Contains(address, table[i].name)
    decreases |table|
  {
    if table == [] then None
    else if Text.Contains(address, table[0].name) then Some(table[0])
    else FirstCityIn(address, table[1..])
  }

  /** The city the table lookup settles on: the earliest matching entry. */
  lemma {:induction false} FirstCityIsEarliest(address: string, table: seq<City>, j: int)
    requires 0 <= j < |table| && Text.Contains(address, table[j].name)
    ensures FirstCityIn(address, table).Some?
    ensures exists i :: (0 <= i <= j && FirstCityIn(address, table).value == table[i] &&
                         forall m :: 0 <= m < i ==> !Text.Contains(address, table[m].name))
    decreases |table|
  {
    if !Text.Contains(address, table[0].name) {
      FirstCityIsEarliest(address, table[1..], j - 1);
      var i :| 0 <= i <= j - 1 && FirstCityIn(address, table[1..]).value == table[1..][i]
        && forall m :: 0 <= m < i ==> !Text.Contains(address, table[1..][m].name);
      assert FirstCityIn(address, table).value == table[i + 1];
    }
  }

  /** The location used when no table entry applies: around central São
      Paulo, offset by up to 0.05 degrees by two `Math.random()` draws. */
  function RandomLocation(address: string, random1: real, random2: real): Location
  {
    Location(-46.63 + (random2 - 0.5) * 0.1, -23.55 + (random1 - 0.5) * 0.1, address)
  }

  lemma RandomLocationBounds(address: string, random1: real, random2: real)
    requires 0.0 <= random1 < 1.0 && 0.0 <= random2 < 1.0
    ensures var loc := RandomLocation(address, random1, random2);
      -23.60 <= loc.latitude < -23.50 && -46.68 <= loc.longitude < -46.58
  {
  }

  /** The table scan of `geocodeAddress`: tries the cities in order and
      stops at the first one whose name the address includes. */
  method ScanCities(address: string, table: seq<City>) returns (found: Option<City>)
    ensures found == FirstCityIn(address, table)
  {
    var i := 0;
    while i < |table|
      invariant 0 <= i <= |table|
      invariant FirstCityIn(address, table) == FirstCityIn(address, table[i..])
    {
      var city := table[i];
      if Text.Contains(address, city.name) {
        return Some(city);
      }
      assert table[i..][1..] == table[i + 1..];
      i := i + 1;
    }
    return None;
  }

  /** `geocodeAddress`: for a city lookup, the coordinates of the first city
      the address includes; otherwise, or when none matches, a random
      location. The address is always passed through unchanged. */
  method GeocodeAddress(address: string, random1: real, random2: real) returns (loc: Location)
    ensures loc.address == address
    ensures IsCityLookup(address) && FirstCityIn(address, CityTable).Some? ==>
      var c := FirstCityIn(address, CityTable).value;
      loc == Location(c.longitude, c.latitude, address)
    ensures !IsCityLookup(address) || FirstCityIn(address, CityTable).None? ==>
      loc == RandomLocation(address, random1, random2)
  {
    if IsCityLookup(address) {
      var found := ScanCities(address, CityTable);
      if found.Some? {
        return Location(found.value.longitude, found.value.latitude, address);
      }
    }
    return RandomLocation(address, random1, random2);
  }

  // ------------------------------------------------------------------- route

  /** The Haversine result is stretched by 1.3 to stand for road distance. */
  const RoadFactor: real := 1.3

  /** Average speed in km/h the duration assumes. */
  const AverageSpeed: real := 30.0

  const NumPoints: nat := 10

  /** Point `i` of the polyline: the fraction i/10 of the way from origin to
      destination, as (longitude, latitude). */
  function PointAt(origin: Location, destination: Location, i: int): (pt: Point)
    ensures 0 <= i <= NumPoints ==>
      && Between(origin.longitude, pt.longitude, destination.longitude)
      && Between(origin.latitude, pt.latitude, destination.latitude)
  {
    var fraction := i as real / NumPoints as real;
    var pt := Point(origin.longitude + fraction * (destination.longitude - origin.longitude),
                    origin.latitude + fraction * (destination.latitude - origin.latitude));
    if 0 <= i <= NumPoints then
      InterpolationBetween(origin.longitude, destination.longitude, fraction);
      InterpolationBetween(origin.latitude, destination.latitude, fraction);
      pt
    else pt
  }

  /** `x` lies on the closed interval between `a` and `b`, in either order. */
  predicate Between(a: real, x: real, b: real)
  {
    (a <= x <= b) || (b <= x <= a)
  }

  /** Going a fraction in [0, 1] of the way from `a` to `b` stays between them. */
  lemma InterpolationBetween(a: real, b: real, fraction: real)
    requires 0.0 <= fraction <= 1.0
    ensures Between(a, a + fraction * (b - a), b)
  {
    var d := b - a;
    assert fraction * d + (1.0 - fraction) * d == d;
    if d >= 0.0 {
      assert fraction * d >= 0.0 && (1.0 - fraction) * d >= 0.0;
    } else {
      assert fraction * d <= 0.0 && (1.0 - fraction) * d <= 0.0;
    }
  }

  /** The polyline starts at the origin and ends at the destination. */
  lemma PolylineEndpoints(origin: Location, destination: Location)
    ensures PointAt(origin, destination, 0) == Point(origin.longitude, origin.latitude)
    ensures PointAt(origin, destination, NumPoints as int) == Point(destination.longitude, destination.latitude)
  {
    assert NumPoints as real / NumPoints as real == 1.0;
  }

  /** Consecutive points are a tenth of the way apart in each coordinate. */
  lemma PolylineEvenlySpaced(origin: Location, destination: Location, i: int)
    ensures PointAt(origin, destination, i + 1).longitude - PointAt(origin, destination, i).longitude
         == (destination.longitude - origin.longitude) / 10.0
    ensures PointAt(origin, destination, i + 1).latitude - PointAt(origin, destination, i).latitude
         == (destination.latitude - origin.latitude) / 10.0
  {
  }

  /** `calculateRoute`, given the great-circle distance in km between the
      two points: road distance rounded to cents of a km, duration in whole
      seconds at 30 km/h, and an 11-point straight polyline. */
  method CalculateRoute(origin: Location, destination: Location, greatCircleKm: real)
    returns (route: Route)
    ensures route.distance == Rounding.RoundToCents(greatCircleKm * RoadFactor)
    ensures route.duration == (greatCircleKm * RoadFactor / AverageSpeed * 3600.0).Floor
    ensures |route.coordinates| == NumPoints + 1
    ensures forall i :: 0 <= i < |route.coordinates| ==> route.coordinates[i] == PointAt(origin, destination, i)
  {
    var distance := greatCircleKm * RoadFactor;
    var duration := distance / AverageSpeed * 60.0 * 60.0;
    var coordinates: seq<Point> := [];
    for i := 0 to NumPoints + 1
      invariant |coordinates| == i
      invariant forall j :: 0 <= j < i ==> coordinates[j] == PointAt(origin, destination, j)
    {
      var fraction := i as real / NumPoints as real;
      var lat := origin.latitude + fraction * (destination.latitude - origin.latitude);
      var lng := origin.longitude + fraction * (destination.longitude - origin.longitude);
      coordinates := coordinates + [Point(lng, lat)];
    }
    route := Route(Rounding.RoundToCents(distance), duration.Floor, coordinates);
  }

  /** The estimate's duration in seconds is within a second of the road
      distance at 30 km/h, and never negative. */
  lemma DurationBounds(greatCircleKm: real)
    requires greatCircleKm >= 0.0
    ensures var d := (greatCircleKm * RoadFactor / AverageSpeed * 3600.0).Floor;
      0 <= d && d as real <= greatCircleKm * RoadFactor * 120.0 < d as real + 1.0
  {
  }
}
