/** Points of the height profile and of the track, and the plane geometry the
    simplifiers need. Coordinates are idealised as `real` (no rounding, no NaN). */
module Geometry {

  /** The two numeric coordinates a point exposes to the simplifiers. */
  datatype Vec = Vec(x: real, y: real)

  /** One point of a height profile: distance along the track and elevation. */
  datatype DistanceHeight = DistanceHeight(distance: real, elevation: real)

  /** A track coordinate; only latitude, longitude and elevation matter here. */
  datatype Coordinate = Coordinate(latitude: real, longitude: real, elevation: real)

  /** A height-profile point seen as (x, y) = (distance, elevation). */
  function HeightView(p: DistanceHeight): Vec {
    Vec(p.distance, p.elevation)
  }

  function Square(a: real): real {
    a * a
  }

  function SqDistance(a: Vec, b: Vec): real {
    Square(a.x - b.x) + Square(a.y - b.y)
  }

  lemma SquareNonNegative(a: real)
    ensures Square(a) >= 0.0
    ensures a != 0.0 ==> Square(a) > 0.0
  {
    if a != 0.0 {
      SquareOverRoot(a);
    }
  }

  lemma SquareOverRoot(a: real)
    requires a != 0.0
    ensures Square(a) / a == a
  {
  }

  lemma SqDistanceNonNegative(a: Vec, b: Vec)
    ensures SqDistance(a, b) >= 0.0
  {
    SquareNonNegative(a.x - b.x);
    SquareNonNegative(a.y - b.y);
  }

  lemma DistinctPointsApart(a: Vec, b: Vec)
    requires a != b
    ensures SqDistance(a, b) > 0.0
  {
    SquareNonNegative(a.x - b.x);
    SquareNonNegative(a.y - b.y);
  }

  /** The parameter of the projection of `p` onto the line through `p1` and
      `p2`, measured so that 0 is `p1` and 1 is `p2`. */
  function ProjectionParameter(p: Vec, p1: Vec, p2: Vec): real
    requires p1 != p2
  {
    DistinctPointsApart(p2, p1);
    ((p.x - p1.x) * (p2.x - p1.x) + (p.y - p1.y) * (p2.y - p1.y)) / SqDistance(p2, p1)
  }

  /** The point of the closed segment from `p1` to `p2` nearest to `p`: the
      projection parameter is clamped to [0, 1], and a degenerate segment
      (`p1 == p2`) is the single point `p1`. */
  function NearestOnSegment(p: Vec, p1: Vec, p2: Vec): Vec {
    if p1 != p2 then
      var t := ProjectionParameter(p, p1, p2);
      if t > 1.0 then p2
      else if t > 0.0 then Vec(p1.x + (p2.x - p1.x) * t, p1.y + (p2.y - p1.y) * t)
      else p1
    else p1
  }

  /** The squared distance from `p` to the closed segment from `p1` to `p2`. */
  function SquaredDistanceToSegment(p: Vec, p1: Vec, p2: Vec): (r: real)
    ensures r >= 0.0
    ensures p1 == p2 ==> r == SqDistance(p, p1)
    ensures p == p1 ==> r == 0.0
  {
    var nearest := NearestOnSegment(p, p1, p2);
    SqDistanceNonNegative(p, nearest);
    SqDistance(p, nearest)
  }

  /** A point on the chord itself, between its two ends, is at distance 0:
      `p = p1 + s * (p2 - p1)` with `0 <= s <= 1`. */
  lemma OnSegmentHasZeroDistance(p: Vec, p1: Vec, p2: Vec, s: real)
    requires 0.0 <= s <= 1.0
    requires p.x == p1.x + s * (p2.x - p1.x) && p.y == p1.y + s * (p2.y - p1.y)
    ensures SquaredDistanceToSegment(p, p1, p2) == 0.0
  {
    if p1 != p2 {
      var dx := p2.x - p1.x;
      var dy := p2.y - p1.y;
      DistinctPointsApart(p2, p1);
      var deltaSquared := SqDistance(p2, p1);
      assert p.x - p1.x == s * dx;
      assert p.y - p1.y == s * dy;
      calc {
        (p.x - p1.x) * dx + (p.y - p1.y) * dy;
        (s * dx) * dx + (s * dy) * dy;
        s * deltaSquared;
      }
      ParameterOfScaledChord(s * deltaSquared, deltaSquared, s);
      assert ProjectionParameter(p, p1, p2) == s;
      if s == 0.0 {
        assert p == p1;
      } else if s == 1.0 {
        assert p == p2;
      } else {
        assert NearestOnSegment(p, p1, p2) == p;
      }
    } else {
      assert p == p1;
    }
  }

  lemma ParameterOfScaledChord(num: real, den: real, s: real)
    requires den > 0.0 && num == s * den
    ensures num / den == s
  {
  }
}
