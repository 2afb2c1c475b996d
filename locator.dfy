/** getClosestPlane: a linear scan over the flights the feed returned, keeping the
    one nearest to the observer. Fetching the flights (getFlights) is I/O and is
    replaced by the `flights` parameter. */
module Locator {
  import opened FlightFeed
  import opened Geodesy

  /** The running minimum, which starts at math.Inf(1). */
  datatype Bound = Infinity | Finite(value: real)

  predicate Below(d: real, b: Bound) {
    b.Infinity? || d < b.value
  }

  /** The observer's Cartesian point: its altitude arrives in feet and is converted. */
  function ObserverPoint(m: Elementary, longitude: real, latitude: real, altitude: real): Point
    requires Sound(m)
  {
    PointToCartesian(m, longitude, latitude, FeetToMeters(altitude))
  }

  /** Distance from the observer to a flight as getClosestPlane measures it: the
      flight's altitude (feet, from the feed) goes into the transform unconverted. */
  function Separation(m: Elementary, observer: Point, f: FlightData): real
    requires Sound(m)
  {
    Distance(m, observer, PointToCartesian(m, f.longitude, f.latitude, f.altitude as real))
  }

  /** Returns the zero-value record when there are no flights, and otherwise the flight
      at index k: no other flight is nearer, and every flight before k is strictly
      farther (a later flight at the same distance does not replace it). */
  method ClosestPlane(m: Elementary, longitude: real, latitude: real, altitude: real, flights: seq<FlightData>)
    returns (closest: FlightData, ghost k: int)
    requires Sound(m)
    ensures |flights| == 0 ==> closest == NoFlight
    ensures |flights| > 0 ==> 0 <= k < |flights| && closest == flights[k]
    ensures forall j :: 0 <= j < |flights| ==>
      Separation(m, ObserverPoint(m, longitude, latitude, altitude), closest)
        <= Separation(m, ObserverPoint(m, longitude, latitude, altitude), flights[j])
    ensures |flights| > 0 ==> forall j :: 0 <= j < k ==>
      Separation(m, ObserverPoint(m, longitude, latitude, altitude), flights[j])
        > Separation(m, ObserverPoint(m, longitude, latitude, altitude), closest)
  {
    var observer := ObserverPoint(m, longitude, latitude, altitude);
    var minDistance := Infinity;
    closest := NoFlight;
    k := -1;
    for i := 0 to |flights|
      invariant minDistance.Infinity? <==> i == 0
      invariant i == 0 ==> closest == NoFlight && k == -1
      invariant i > 0 ==> 0 <= k < i && closest == flights[k]
      invariant i > 0 ==> minDistance == Finite(Separation(m, observer, closest))
      invariant forall j :: 0 <= j < i ==> Separation(m, observer, closest) <= Separation(m, observer, flights[j])
      invariant forall j :: 0 <= j < k ==> Separation(m, observer, flights[j]) > Separation(m, observer, closest)
    {
      var distanceToFlight := Separation(m, observer, flights[i]);
      if Below(distanceToFlight, minDistance) {
        minDistance := Finite(distanceToFlight);
        closest := flights[i];
        k := i;
      }
    }
  }
}
