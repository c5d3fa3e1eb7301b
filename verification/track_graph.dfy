/** The parts of GPXKit's `TrackGraph` the editor reads, and the editor's
    own extensions on it (GPXKit+Extensions.swift): looking up the segment
    at a distance, the greatest grade, and the smoothed height map. */
module TrackGraphs {
  import opened Wrappers
  import opened Geometry
  import Simplification
  import Subsequences

  /** A grade segment as GPXKit builds it. Its `grade` is computed by the
      library and is taken here as given. A segment's closed span
      `start...end` must be a valid range, so `start <= end`. */
  datatype GradeSegment = GradeSegment(start: real, end: real, elevationAtStart: real, elevationAtEnd: real, grade: real)

  type Segment = s: GradeSegment | s.start <= s.end
    witness GradeSegment(0.0, 0.0, 0.0, 0.0, 0.0)

  /** The graph GPXKit derives from a track: the grade segments and the raw
      height profile, with the aggregates the editor displays. */
  datatype TrackGraph = TrackGraph(gradeSegments: seq<Segment>, heightMap: seq<DistanceHeight>, distance: real, elevationGain: real)

  predicate Contains(s: Segment, d: real) {
    s.start <= d <= s.end
  }

  /** `gradeSegments.last { (seg.start ... seg.end).contains(d) }`, as an
      index: the search runs from the back. */
  function LastContaining(segments: seq<Segment>, d: real): (r: Option<nat>)
    ensures r.Some? ==>
              && r.value < |segments|
              && Contains(segments[r.value], d)
              && forall j :: r.value < j < |segments| ==> !Contains(segments[j], d)
    ensures r.None? <==> forall j :: 0 <= j < |segments| ==> !Contains(segments[j], d)
    decreases |segments|
  {
    if |segments| == 0 then None
    else if Contains(segments[|segments| - 1], d) then Some(|segments| - 1)
    else LastContaining(segments[..|segments| - 1], d)
  }

  /** `segment(at:)`: the last segment whose closed span holds `d`, so that
      on a boundary shared by two segments the later one is found. */
  function SegmentAt(g: TrackGraph, d: real): (r: Option<Segment>)
    ensures r.Some? ==>
              && r.value.start <= d <= r.value.end
              && exists k :: 0 <= k < |g.gradeSegments| && g.gradeSegments[k] == r.value
                   && forall j :: k < j < |g.gradeSegments| ==> !Contains(g.gradeSegments[j], d)
    ensures r.None? <==> forall j :: 0 <= j < |g.gradeSegments| ==> !Contains(g.gradeSegments[j], d)
  {
    match LastContaining(g.gradeSegments, d)
    case Some(k) => Some(g.gradeSegments[k])
    case None => None
  }

  /** Swift's `max(by: { $0.grade < $1.grade })` continued at `cur` with
      the running result `best`: it is replaced only by a strictly greater
      grade, so the first segment of greatest grade is returned. */
  function MaxByGrade(segments: seq<Segment>, cur: nat, best: nat): (r: nat)
    requires best < cur <= |segments|
    ensures r == best || cur <= r < |segments|
    ensures segments[best].grade <= segments[r].grade
    ensures forall j :: cur <= j < |segments| ==> segments[j].grade <= segments[r].grade
    ensures forall j :: cur <= j < r ==> segments[j].grade < segments[r].grade
    ensures r != best ==> segments[best].grade < segments[r].grade
    decreases |segments| - cur
  {
    if cur == |segments| then best
    else if segments[best].grade < segments[cur].grade then MaxByGrade(segments, cur + 1, cur)
    else MaxByGrade(segments, cur + 1, best)
  }

  /** The position of the first segment of greatest grade, none for no
      segments. */
  function SteepestSegment(segments: seq<Segment>): (r: Option<nat>)
    ensures r.None? <==> |segments| == 0
    ensures r.Some? ==>
              && r.value < |segments|
              && (forall j :: 0 <= j < |segments| ==> segments[j].grade <= segments[r.value].grade)
              && (forall j :: 0 <= j < r.value ==> segments[j].grade < segments[r.value].grade)
  {
    if |segments| == 0 then None else Some(MaxByGrade(segments, 1, 0))
  }

  /** `gradeSegments.max(by:)?.grade ?? .zero`: the greatest segment grade,
      0 when there are no segments. */
  function MaxGrade(segments: seq<Segment>): (r: real)
    ensures |segments| == 0 ==> r == 0.0
    ensures forall j :: 0 <= j < |segments| ==> segments[j].grade <= r
    ensures |segments| > 0 ==> exists j :: 0 <= j < |segments| && segments[j].grade == r
  {
    match SteepestSegment(segments)
    case Some(k) => segments[k].grade
    case None => 0.0
  }

  /** `rate` of `x` plus `1 - rate` of `y`. */
  function Blend(rate: real, x: real, y: real): real {
    rate * x + (1.0 - rate) * y
  }

  /** The exponential smoothing pass of `heightMap(gradeTolerance:rate:)`,
      a left fold: the first point is kept, every later point keeps its
      distance and takes `rate` of its own elevation plus `1 - rate` of
      the previous smoothed elevation. */
  function Smooth(raw: seq<DistanceHeight>, rate: real): (r: seq<DistanceHeight>)
    ensures |r| == |raw|
    ensures |raw| > 0 ==> r[0] == raw[0]
    ensures forall i :: 0 <= i < |r| ==> r[i].distance == raw[i].distance
    ensures forall i :: 0 < i < |r| ==>
              r[i].elevation == Blend(rate, raw[i].elevation, r[i - 1].elevation)
    decreases |raw|
  {
    if |raw| == 0 then []
    else if |raw| == 1 then [raw[0]]
    else
      var filtered := Smooth(raw[..|raw| - 1], rate);
      var el := raw[|raw| - 1];
      var current := filtered[|filtered| - 1];
      filtered + [DistanceHeight(el.distance, Blend(rate, el.elevation, current.elevation))]
  }

  /** `heightMap(gradeTolerance:rate:)`: the smoothed profile, simplified
      with Douglas-Peucker over (distance, elevation). */
  function HeightMap(g: TrackGraph, gradeTolerance: real := 1.0, rate: real := 0.5): (r: seq<DistanceHeight>)
    ensures |g.heightMap| < 2 ==> r == []
    ensures |g.heightMap| >= 2 ==>
              && 2 <= |r| <= |g.heightMap|
              && r[0] == g.heightMap[0]
              && r[|r| - 1].distance == g.heightMap[|g.heightMap| - 1].distance
    ensures Subsequences.IsSubsequence(r, Smooth(g.heightMap, rate))
  {
    Simplification.Simplify(Smooth(g.heightMap, rate), HeightView, gradeTolerance)
  }

  /** With `rate == 1` the smoothing pass changes nothing. */
  lemma {:induction false} SmoothAtFullRateIsIdentity(raw: seq<DistanceHeight>)
    ensures Smooth(raw, 1.0) == raw
    decreases |raw|
  {
    if |raw| > 1 {
      SmoothAtFullRateIsIdentity(raw[..|raw| - 1]);
      assert raw[..|raw| - 1] + [raw[|raw| - 1]] == raw;
    }
  }

  /** ... so `heightMap(rate: 1)` is Douglas-Peucker on the raw profile. */
  lemma HeightMapAtFullRate(g: TrackGraph, gradeTolerance: real)
    ensures HeightMap(g, gradeTolerance, 1.0) == Simplification.Simplify(g.heightMap, HeightView, gradeTolerance)
  {
    SmoothAtFullRateIsIdentity(g.heightMap);
  }

  /** A convex combination of two values stays between their bounds. */
  lemma ConvexCombinationBounded(rate: real, x: real, y: real, lo: real, hi: real)
    requires 0.0 <= rate <= 1.0
    requires lo <= x <= hi && lo <= y <= hi
    ensures lo <= Blend(rate, x, y) <= hi
  {
    ProductNonNegative(rate, x - lo);
    ProductNonNegative(1.0 - rate, y - lo);
    ProductNonNegative(rate, hi - x);
    ProductNonNegative(1.0 - rate, hi - y);
    assert Blend(rate, x, y) - lo == rate * (x - lo) + (1.0 - rate) * (y - lo);
    assert hi - Blend(rate, x, y) == rate * (hi - x) + (1.0 - rate) * (hi - y);
  }

  lemma ProductNonNegative(a: real, b: real)
    requires a >= 0.0 && b >= 0.0
    ensures a * b >= 0.0
  {
  }

  /** For `0 <= rate <= 1` every smoothed elevation lies within any bounds
      that hold every raw elevation. */
  lemma {:induction false} SmoothStaysWithinBounds(raw: seq<DistanceHeight>, rate: real, lo: real, hi: real)
    requires 0.0 <= rate <= 1.0
    requires forall i :: 0 <= i < |raw| ==> lo <= raw[i].elevation <= hi
    ensures forall i :: 0 <= i < |raw| ==> lo <= Smooth(raw, rate)[i].elevation <= hi
    decreases |raw|
  {
    if |raw| > 1 {
      var prefix := raw[..|raw| - 1];
      SmoothStaysWithinBounds(prefix, rate, lo, hi);
      var r := Smooth(raw, rate);
      assert r[..|raw| - 1] == Smooth(prefix, rate);
      ConvexCombinationBounded(rate, raw[|raw| - 1].elevation, r[|raw| - 2].elevation, lo, hi);
    }
  }
}
