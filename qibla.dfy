/** The Qibla direction of `lambda/qiblaService.js`: normalising the raw bearing,
    rounding it for display, bucketing it into one of eight cardinal directions, and
    the city table with its fallback. The spherical trigonometry (the azimuth formula
    and the Haversine distance) is not modelled: the raw bearing `toDegrees(atan2(y, x))`
    and the rounded distance are supplied by functions passed in. */
module Qibla {
  import opened Common

  /** A bearing as `Math.atan2` yields it, converted to degrees. */
  type RawBearing = b: real | -180.0 <= b <= 180.0

  datatype Coordinates = Coordinates(lat: real, lon: real)

  /** `KAABA_COORDINATES` (lines 7-10). */
  const Kaaba: Coordinates := Coordinates(21.4225, 39.8262)

  /** `(bearing + 360) % 360` (line 50). */
  function NormalizeBearing(b: RawBearing): (r: real)
    ensures 0.0 <= r < 360.0
    ensures b >= 0.0 ==> r == b
    ensures b < 0.0 ==> r == b + 360.0
  {
    JsRealRem(b + 360.0, 360.0)
  }

  /** Normalising moves the bearing by a whole turn at most, so it keeps the direction. */
  lemma NormalizeKeepsDirection(b: RawBearing)
    ensures NormalizeBearing(b) == b || NormalizeBearing(b) == b + 360.0
  {
  }

  /** `Math.round(bearing * 100) / 100` (line 53). */
  function RoundHundredths(b: real): (r: real)
    ensures (r * 100.0).Floor as real == r * 100.0
    ensures -0.005 < r - b <= 0.005
  {
    var n := JsRound(b * 100.0);
    assert n as real - 0.5 <= b * 100.0 < n as real + 0.5;
    n as real / 100.0
  }

  /** The displayed degrees stay within 0 to 360 inclusive; 360.00 itself is shown for a
      bearing of 359.995 or more, whose direction is North. */
  lemma DisplayedDegreesRange(b: real)
    requires 0.0 <= b < 360.0
    ensures 0.0 <= RoundHundredths(b) <= 360.0
  {
    var n := JsRound(b * 100.0);
    assert n as real - 0.5 <= b * 100.0 < n as real + 0.5;
    assert 0 <= n <= 36000;
  }

  lemma DisplayedDegreesCanReach360()
    ensures RoundHundredths(359.996) == 360.0
    ensures CardinalIndex(359.996) == 0
  {
    assert JsRound(359.996 * 100.0) == 36000;
    CardinalBucket(359.996, 8);
  }

  /** One entry of the direction table. */
  datatype Direction = Direction(ar: string, fr: string, en: string, abbr: string)

  /** The eight directions, clockwise from North (lines 88-97). */
  const Directions: seq<Direction> := [
    Direction("شمال", "Nord", "North", "N"),
    Direction("شمال شرق", "Nord-Est", "North-East", "NE"),
    Direction("شرق", "Est", "East", "E"),
    Direction("جنوب شرق", "Sud-Est", "South-East", "SE"),
    Direction("جنوب", "Sud", "South", "S"),
    Direction("جنوب غرب", "Sud-Ouest", "South-West", "SW"),
    Direction("غرب", "Ouest", "West", "W"),
    Direction("شمال غرب", "Nord-Ouest", "North-West", "NW")
  ]

  /** `Math.round(degrees / 45) % 8` (line 99), with JavaScript's signed remainder. */
  function CardinalIndex(deg: real): (i: int)
    ensures -8 < i < 8
    ensures deg >= -22.5 ==> 0 <= i < 8
    ensures deg < -22.5 ==> i <= 0
  {
    JsRem(JsRound(deg / 45.0), 8)
  }

  /** `getCardinalDirection(degrees)`: `directions[index]`, undefined for a negative
      index. Every angle from -22.5 on has a direction. */
  function GetCardinalDirection(deg: real): (r: Option<Direction>)
    ensures deg >= -22.5 ==> r == Some(Directions[CardinalIndex(deg)])
    ensures r.Some? ==> r.value in Directions
  {
    var i := CardinalIndex(deg);
    if 0 <= i < 8 then Some(Directions[i]) else None
  }

  /** Each direction covers the 45-degree sector centred on it, lower bound included:
      the sector starting at `45k - 22.5` belongs to direction `k mod 8`, so that
      [337.5, 360) is North again. */
  lemma CardinalBucket(deg: real, k: int)
    requires 0 <= k <= 8
    requires 45.0 * k as real - 22.5 <= deg < 45.0 * k as real + 22.5
    ensures CardinalIndex(deg) == k % 8
  {
    var n := JsRound(deg / 45.0);
    assert n as real - 0.5 <= deg / 45.0 < n as real + 0.5;
    assert k as real - 0.5 <= deg / 45.0 < k as real + 0.5;
    assert n == k;
  }

  /** The sector boundaries round half up. */
  lemma BoundariesRoundUp()
    ensures GetCardinalDirection(22.5) == Some(Directions[1])
    ensures GetCardinalDirection(67.5) == Some(Directions[2])
    ensures GetCardinalDirection(337.5) == Some(Directions[0])
    ensures GetCardinalDirection(22.4) == Some(Directions[0])
  {
    CardinalBucket(22.5, 1);
    CardinalBucket(67.5, 2);
    CardinalBucket(337.5, 8);
    CardinalBucket(22.4, 0);
  }

  /** The result of `calculateQiblaDirection`. */
  datatype QiblaResult = QiblaResult(degrees: real, cardinalDirection: Option<Direction>, distance: int)

  /** `calculateQiblaDirection(latitude, longitude)` once the trigonometry has produced
      the raw bearing and the rounded distance (lines 49-57): the degrees shown are the
      rounded normalised bearing, the direction comes from the unrounded one. */
  function CalculateQiblaDirection(raw: RawBearing, distance: int): (r: QiblaResult)
    ensures r.cardinalDirection == Some(Directions[CardinalIndex(NormalizeBearing(raw))])
    ensures 0.0 <= r.degrees <= 360.0
    ensures (r.degrees * 100.0).Floor as real == r.degrees * 100.0
    ensures -0.005 < r.degrees - NormalizeBearing(raw) <= 0.005
    ensures r.distance == distance
  {
    var bearing := NormalizeBearing(raw);
    DisplayedDegreesRange(bearing);
    QiblaResult(RoundHundredths(bearing), GetCardinalDirection(bearing), distance)
  }

  /** The city table of `getQiblaDirectionByCity` (lines 115-123), Paris for any other
      name (line 125). */
  function CityCoordinates(city: string): (c: Coordinates)
    ensures city == "Paris" ==> c == Coordinates(48.8566, 2.3522)
    ensures city == "London" ==> c == Coordinates(51.5074, -0.1278)
    ensures city !in KnownCities ==> c == Coordinates(48.8566, 2.3522)
  {
    if city == "Riyadh" then Coordinates(24.7136, 46.6753)
    else if city == "Dubai" then Coordinates(25.2048, 55.2708)
    else if city == "Cairo" then Coordinates(30.0444, 31.2357)
    else if city == "Istanbul" then Coordinates(41.0082, 28.9784)
    else if city == "London" then Coordinates(51.5074, -0.1278)
    else if city == "New York" then Coordinates(40.7128, -74.0060)
    else Coordinates(48.8566, 2.3522)
  }

  const KnownCities: set<string> := {"Paris", "Riyadh", "Dubai", "Cairo", "Istanbul", "London", "New York"}

  /** `getQiblaDirectionByCity(city, country)`; `bearingOf` and `distanceOf` stand for
      the azimuth formula and the Haversine distance towards the Kaaba. */
  function GetQiblaDirectionByCity(city: string, bearingOf: Coordinates -> RawBearing,
                                   distanceOf: Coordinates -> int): (r: QiblaResult)
    ensures r.cardinalDirection == Some(Directions[CardinalIndex(NormalizeBearing(bearingOf(CityCoordinates(city))))])
    ensures (r.degrees * 100.0).Floor as real == r.degrees * 100.0
    ensures -0.005 < r.degrees - NormalizeBearing(bearingOf(CityCoordinates(city))) <= 0.005
    ensures r.distance == distanceOf(CityCoordinates(city))
  {
    var c := CityCoordinates(city);
    CalculateQiblaDirection(bearingOf(c), distanceOf(c))
  }

  /** A city outside the table gets exactly the answer for Paris. */
  lemma UnknownCityIsParis(city: string, bearingOf: Coordinates -> RawBearing, distanceOf: Coordinates -> int)
    requires city !in KnownCities
    ensures GetQiblaDirectionByCity(city, bearingOf, distanceOf) == GetQiblaDirectionByCity("Paris", bearingOf, distanceOf)
  {
  }

  /** The table's cities are told apart: no two of them share coordinates. */
  lemma KnownCitiesDistinct(a: string, b: string)
    requires a in KnownCities && b in KnownCities && a != b
    ensures CityCoordinates(a) != CityCoordinates(b)
  {
  }
}
