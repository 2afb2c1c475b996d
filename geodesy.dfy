/** The geometry behind getClosestPlane: feetToMeters, pointToCartesian (WGS 84
    geodetic to Earth-centred Cartesian) and the Euclidean distance. Sine, cosine
    and square root cannot be computed over Dafny's reals, so they are passed in
    as an `Elementary` value; the formulas and constants around them are the source's. */
module Geodesy {

  datatype Point = Point(x: real, y: real, z: real)

  /** math.Sin, math.Cos and math.Sqrt. */
  datatype Elementary = Elementary(sin: real -> real, cos: real -> real, sqrt: real -> real)

  /** The facts about the real functions that the model relies on. */
  ghost predicate Sound(m: Elementary) {
    && (forall t :: -1.0 <= m.sin(t) <= 1.0)
    && m.sqrt(0.0) == 0.0
    && (forall v :: v > 0.0 ==> m.sqrt(v) > 0.0)
  }

  /** WGS 84 semi-major axis, in metres. */
  const SemiMajorAxis: real := 6378137.0
  /** WGS 84 first eccentricity squared. */
  const EccentricitySquared: real := 0.006694379990197619
  /** The factor 1 - e^2 as the source writes it (a float64 literal, so it differs
      from 1 - EccentricitySquared by about 2e-17). */
  const PolarScale: real := 0.9933056200098024
  const MetersPerFoot: real := 0.3048

  function FeetToMeters(feet: real): real {
    MetersPerFoot * feet
  }

  /** Converting feet to metres keeps the order of altitudes, so it cannot change which
      of two altitudes is higher. */
  lemma FeetToMetersKeepsOrder(a: real, b: real)
    ensures a < b <==> FeetToMeters(a) < FeetToMeters(b)
    ensures FeetToMeters(a) == FeetToMeters(b) ==> a == b
  {
  }

  function Square(v: real): (s: real)
    ensures s >= 0.0
  {
    v * v
  }

  lemma SineSquaredAtMostOne(s: real)
    requires -1.0 <= s <= 1.0
    ensures Square(s) <= 1.0
  {
    if s >= 0.0 {
      assert s * s <= s * 1.0;
    } else {
      assert (-s) * (-s) <= (-s) * 1.0;
    }
  }

  /** The local function N of pointToCartesian: the prime-vertical radius of curvature. */
  function PrimeVerticalRadius(m: Elementary, phi: real): (n: real)
    requires Sound(m)
    ensures n > 0.0
  {
    var s := m.sin(phi);
    SineSquaredAtMostOne(s);
    SemiMajorAxis / m.sqrt(1.0 - EccentricitySquared * Square(s))
  }

  function PointToCartesian(m: Elementary, longitude: real, latitude: real, altitude: real): Point
    requires Sound(m)
  {
    var n := PrimeVerticalRadius(m, latitude);
    Point(
      (n + altitude) * m.cos(latitude) * m.cos(longitude),
      (n + altitude) * m.cos(latitude) * m.sin(longitude),
      (PolarScale * n + altitude) * m.sin(latitude))
  }

  function Distance(m: Elementary, p: Point, q: Point): (d: real)
    ensures Sound(m) ==> d >= 0.0
  {
    m.sqrt(Square(q.x - p.x) + Square(q.y - p.y) + Square(q.z - p.z))
  }

  /** On the equator at the prime meridian and at sea level, the Cartesian point lies on
      the x axis at the semi-major axis. */
  lemma TransformAtOrigin(m: Elementary)
    requires Sound(m)
    requires m.sin(0.0) == 0.0 && m.cos(0.0) == 1.0 && m.sqrt(1.0) == 1.0
    ensures PointToCartesian(m, 0.0, 0.0, 0.0) == Point(SemiMajorAxis, 0.0, 0.0)
  {
  }

  lemma DistanceSymmetric(m: Elementary, p: Point, q: Point)
    ensures Distance(m, p, q) == Distance(m, q, p)
  {
  }

  lemma DistanceToSelf(m: Elementary, p: Point)
    requires Sound(m)
    ensures Distance(m, p, p) == 0.0
  {
  }
}
