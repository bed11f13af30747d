/** Positions and great-circle distance. */
module Geo {

  /** A (latitude, longitude) pair in degrees. */
  datatype Point = Point(lat: real, lon: real)

  /** A distance function in metres. The rest of the model takes it as a parameter, so every
      property proved about the walk filter and the drop engine holds whatever the function is. */
  type Distance = (Point, Point) -> real

  /** Earth's radius used by both copies of the Haversine formula, in metres. */
  const EarthRadius: real := 6371000.0

  /** The transcendental functions the formula uses, together with the value used for pi. */
  datatype Trig = Trig(pi: real, sin: real -> real, cos: real -> real,
                       sqrt: real -> real, atan2: (real, real) -> real)

  /** The Haversine term a = sin^2(dphi/2) + cos(phi1) cos(phi2) sin^2(dlambda/2), from the two
      half-difference sines and the two latitude cosines. */
  function HaversineTerm(sinHalfDPhi: real, sinHalfDLambda: real, cosPhi1: real, cosPhi2: real): real {
    sinHalfDPhi * sinHalfDPhi + cosPhi1 * cosPhi2 * sinHalfDLambda * sinHalfDLambda
  }

  function Radians(t: Trig, degrees: real): real { degrees * t.pi / 180.0 }

  /** The Haversine formula: c = 2 atan2(sqrt a, sqrt(1 - a)), distance = R c. */
  function Haversine(t: Trig, p: Point, q: Point): real {
    var dPhi := Radians(t, q.lat - p.lat);
    var dLambda := Radians(t, q.lon - p.lon);
    var a := HaversineTerm(t.sin(dPhi / 2.0), t.sin(dLambda / 2.0),
                           t.cos(Radians(t, p.lat)), t.cos(Radians(t, q.lat)));
    var c := 2.0 * t.atan2(t.sqrt(a), t.sqrt(1.0 - a));
    EarthRadius * c
  }

  /** The Haversine formula as a distance function for the rest of the model. */
  function HaversineDistance(t: Trig): Distance {
    (p: Point, q: Point) => Haversine(t, p, q)
  }

  /** A point is at distance 0 from itself: both differences vanish, so a = 0 and c = 0. */
  lemma HaversineSamePoint(t: Trig, p: Point)
    requires t.sin(0.0) == 0.0 && t.sqrt(0.0) == 0.0 && t.sqrt(1.0) == 1.0
    requires t.atan2(0.0, 1.0) == 0.0
    ensures Haversine(t, p, p) == 0.0
    ensures HaversineDistance(t)(p, p) == 0.0
  {
    assert Radians(t, p.lat - p.lat) / 2.0 == 0.0;
    assert Radians(t, p.lon - p.lon) / 2.0 == 0.0;
  }

  lemma HaversineTermSymmetric(a: real, b: real, c1: real, c2: real)
    ensures HaversineTerm(-a, -b, c2, c1) == HaversineTerm(a, b, c1, c2)
  {
    assert (-a) * (-a) == a * a;
    assert c2 * c1 * (-b) * (-b) == c1 * c2 * b * b;
  }

  /** The formula is symmetric whenever sine is odd. */
  lemma HaversineSymmetric(t: Trig, p: Point, q: Point)
    requires forall x :: t.sin(-x) == -t.sin(x)
    ensures Haversine(t, p, q) == Haversine(t, q, p)
  {
    var hPhi := Radians(t, q.lat - p.lat) / 2.0;
    var hLambda := Radians(t, q.lon - p.lon) / 2.0;
    assert Radians(t, p.lat - q.lat) / 2.0 == -hPhi;
    assert Radians(t, p.lon - q.lon) / 2.0 == -hLambda;
    assert t.sin(-hPhi) == -t.sin(hPhi);
    assert t.sin(-hLambda) == -t.sin(hLambda);
    HaversineTermSymmetric(t.sin(hPhi), t.sin(hLambda), t.cos(Radians(t, p.lat)), t.cos(Radians(t, q.lat)));
  }
}
