/** Largest-Triangle-Three-Buckets downsampling of a height profile
    (`largestTriangleThreeBuckets(toCount:)` in Simplifiable.swift).

    The first and last points are always kept. The points in between are cut
    into `threshold - 2` buckets; bucket `i` runs from `BucketStart(i)` up to
    `BucketStart(i + 1)`. From each bucket the point forming the largest
    triangle with the previously kept point and the average of the next
    bucket is kept. The bucket bounds are the floors of multiples of the
    real bucket width `(count - 2) / (threshold - 2)`, taken here as exact
    integer division. */
module Downsampling {
  import opened Geometry
  import opened Subsequences

  /** The inputs that are returned unchanged. */
  predicate Degenerate(n: int, threshold: int) {
    n == 0 || threshold <= 2 || threshold >= n
  }

  /** `a * b` as repeated addition. Bucket arithmetic is kept linear this
      way: every product the proofs use is unfolded one step at a time. */
  function Mul(a: nat, b: nat): nat
    decreases a
  {
    if a == 0 then 0 else b + Mul(a - 1, b)
  }

  lemma {:induction false} MulIsTimes(a: nat, b: nat)
    ensures Mul(a, b) == a * b
    decreases a
  {
    if a > 0 {
      MulIsTimes(a - 1, b);
    }
  }

  lemma {:induction false} MulMonotone(a: nat, a': nat, b: nat)
    requires a <= a'
    ensures Mul(a, b) <= Mul(a', b)
    decreases a' - a
  {
    if a < a' {
      MulMonotone(a, a' - 1, b);
    }
  }

  lemma {:induction false} MulSucc(a: nat, b: nat)
    ensures Mul(a, b + 1) == Mul(a, b) + a
    decreases a
  {
    if a > 0 {
      MulSucc(a - 1, b);
    }
  }

  lemma {:induction false} MulCommutes(a: nat, b: nat)
    ensures Mul(a, b) == Mul(b, a)
    decreases b
  {
    if b > 0 {
      MulCommutes(a, b - 1);
      MulSucc(a, b - 1);
    } else {
      MulByZero(a);
    }
  }

  lemma {:induction false} MulByZero(a: nat)
    ensures Mul(a, 0) == 0
    decreases a
  {
    if a > 0 {
      MulByZero(a - 1);
    }
  }

  /** `x / c` rounded down, by repeated subtraction. */
  function FloorDiv(x: nat, c: nat): (q: nat)
    requires c > 0
    ensures Mul(q, c) <= x < Mul(q + 1, c)
    decreases x
  {
    if x < c then 0
    else FloorDiv(x - c, c) + 1
  }

  lemma FloorDivAtLeast(x: nat, c: nat, k: nat)
    requires c > 0 && Mul(k, c) <= x
    ensures k <= FloorDiv(x, c)
  {
    var q := FloorDiv(x, c);
    if q < k {
      MulMonotone(q + 1, k, c);
    }
  }

  lemma FloorDivAtMost(x: nat, c: nat, k: nat)
    requires c > 0 && x < Mul(k + 1, c)
    ensures FloorDiv(x, c) <= k
  {
    var q := FloorDiv(x, c);
    if q > k {
      MulMonotone(k + 1, q, c);
    }
  }

  /** First index of bucket `i` of a profile of `n` points reduced to `t`:
      the floor of `i` bucket widths `(n - 2) / (t - 2)`, plus one for the
      kept first point. */
  function BucketStart(i: nat, n: nat, t: nat): (r: nat)
    requires 2 < t < n
    ensures 1 <= r
    ensures i <= t - 2 ==> r <= n - 1
  {
    WidthsWithinProfile(i, n, t);
    FloorDiv(Mul(i, n - 2), t - 2) + 1
  }

  /** In ordinary arithmetic: `BucketStart(i) - 1` is the largest whole
      number of bucket widths `(n - 2) / (t - 2)` that fits in `i` of them,
      that is, the floor of `i * (n - 2) / (t - 2)`. */
  lemma BucketStartIsFloor(i: nat, n: nat, t: nat)
    requires 2 < t < n
    ensures var r := BucketStart(i, n, t);
            (r - 1) * (t - 2) <= i * (n - 2) < r * (t - 2)
  {
    var r := BucketStart(i, n, t);
    MulIsTimes(i, n - 2);
    MulIsTimes(r - 1, t - 2);
    MulIsTimes(r, t - 2);
  }

  lemma WidthsWithinProfile(i: nat, n: nat, t: nat)
    requires 2 < t < n
    ensures i <= t - 2 ==> FloorDiv(Mul(i, n - 2), t - 2) <= n - 2
  {
    if i <= t - 2 {
      MulMonotone(i, t - 2, n - 2);
      MulCommutes(t - 2, n - 2);
      FloorDivAtMost(Mul(i, n - 2), t - 2, n - 2);
    }
  }

  /** Each bucket holds at least one point: the bucket width is at least 1
      because `threshold < count`. */
  lemma BucketGrows(i: nat, n: nat, t: nat)
    requires 2 < t < n
    ensures BucketStart(i, n, t) + 1 <= BucketStart(i + 1, n, t)
  {
    var c := t - 2;
    var q := FloorDiv(Mul(i, n - 2), c);
    assert Mul(i + 1, n - 2) == Mul(i, n - 2) + (n - 2);
    FloorDivAtLeast(Mul(i + 1, n - 2), c, q + 1);
  }

  lemma {:induction false} BucketMonotone(i: nat, j: nat, n: nat, t: nat)
    requires 2 < t < n && i <= j
    ensures BucketStart(i, n, t) + (j - i) <= BucketStart(j, n, t)
    decreases j - i
  {
    if i < j {
      BucketMonotone(i, j - 1, n, t);
      BucketGrows(j - 1, n, t);
    }
  }

  /** The buckets start at index 1 and the last one ends at `n - 1`. */
  lemma BucketEnds(n: nat, t: nat)
    requires 2 < t < n
    ensures BucketStart(0, n, t) == 1
    ensures BucketStart(t - 2, n, t) == n - 1
  {
    var c := t - 2;
    var x := Mul(t - 2, n - 2);
    MulCommutes(t - 2, n - 2);
    FloorDivAtLeast(x, c, n - 2);
    FloorDivAtMost(x, c, n - 2);
  }

  /** Every bucket and the averaging range after it lie inside the profile
      and are non-empty. */
  lemma BucketBounds(i: nat, n: nat, t: nat)
    requires 2 < t < n && i < t - 2
    ensures 1 <= BucketStart(i, n, t) < BucketStart(i + 1, n, t) <= n - 1
    ensures BucketStart(i + 1, n, t) < BucketStart(i + 2, n, t)
  {
    BucketEnds(n, t);
    BucketMonotone(0, i, n, t);
    BucketGrows(i, n, t);
    BucketGrows(i + 1, n, t);
    BucketMonotone(i + 1, t - 2, n, t);
  }

  /** Bucket bounds for a profile of `n` points: entry `i` starts bucket
      `i`; there are `|b| - 2` buckets, the first starts at 1, the last ends
      at `n - 1`, and the entry after that (the end of the last averaging
      range) lies past it. */
  ghost predicate Bounds(b: seq<nat>, n: nat) {
    && 2 < |b| < n
    && b[0] == 1
    && b[|b| - 2] == n - 1
    && forall i, j :: 0 <= i < j < |b| ==> b[i] < b[j]
  }

  /** The bounds of `largestTriangleThreeBuckets(toCount: t)`: the starts of
      buckets 0 to `t - 1`. */
  function BucketStarts(n: nat, t: nat): (b: seq<nat>)
    requires 2 < t < n
    ensures Bounds(b, n) && |b| == t
    ensures forall i :: 0 <= i < t ==> b[i] == BucketStart(i, n, t)
  {
    var b := seq(t, i requires 0 <= i < t => BucketStart(i, n, t));
    BucketStartsIncrease(n, t, b);
    b
  }

  lemma BucketStartsIncrease(n: nat, t: nat, b: seq<nat>)
    requires 2 < t < n
    requires |b| == t && forall i :: 0 <= i < t ==> b[i] == BucketStart(i, n, t)
    ensures Bounds(b, n)
  {
    BucketEnds(n, t);
    forall i, j | 0 <= i < j < t
      ensures b[i] < b[j]
    {
      BucketMonotone(i, j, n, t);
    }
  }

  // ----- the functional reference -----

  /** Coordinate sums of the points in `[lo, hi)`. */
  function Sum(points: seq<DistanceHeight>, lo: nat, hi: nat): Vec
    requires lo <= hi <= |points|
    decreases hi - lo
  {
    if lo == hi then Vec(0.0, 0.0)
    else
      var s := Sum(points, lo, hi - 1);
      Vec(s.x + points[hi - 1].distance, s.y + points[hi - 1].elevation)
  }

  /** The average point of the non-empty range `[lo, hi)`. */
  function Average(points: seq<DistanceHeight>, lo: nat, hi: nat): Vec
    requires lo < hi <= |points|
  {
    var s := Sum(points, lo, hi);
    Vec(s.x / (hi - lo) as real, s.y / (hi - lo) as real)
  }

  function Abs(x: real): real {
    if x < 0.0 then -x else x
  }

  /** Area of the triangle with corners `a`, `b` and `c`. */
  function TriangleArea(a: Vec, b: Vec, c: Vec): (r: real)
    ensures r >= 0.0
  {
    Abs((a.x - c.x) * (b.y - a.y) - (a.x - b.x) * (c.y - a.y)) * 0.5
  }

  /** The area is half the absolute cross product of the edges from `a`,
      whichever order the other two corners come in, and vanishes when a
      corner repeats. */
  lemma TriangleAreaAsCross(a: Vec, b: Vec, c: Vec)
    ensures TriangleArea(a, b, c) == Abs((b.x - a.x) * (c.y - a.y) - (b.y - a.y) * (c.x - a.x)) * 0.5
    ensures TriangleArea(a, b, c) == TriangleArea(a, c, b)
    ensures a == b || a == c || b == c ==> TriangleArea(a, b, c) == 0.0
  {
  }

  function AreaAt(points: seq<DistanceHeight>, j: nat, a: Vec, avg: Vec): real
    requires j < |points|
  {
    TriangleArea(a, HeightView(points[j]), avg)
  }

  /** The scan of one bucket, continuing at `k` with the largest area so far
      `maxArea` found at `best`. Ties go to the earlier point. */
  function Best(points: seq<DistanceHeight>, k: nat, hi: nat, a: Vec, avg: Vec, maxArea: real, best: nat): (r: (real, nat))
    requires k <= hi <= |points|
    ensures r.0 >= maxArea
    ensures forall j :: k <= j < hi ==> AreaAt(points, j, a, avg) <= r.0
    ensures r.0 == maxArea ==> r.1 == best
    ensures r.0 > maxArea ==>
              && k <= r.1 < hi
              && AreaAt(points, r.1, a, avg) == r.0
              && forall j :: k <= j < r.1 ==> AreaAt(points, j, a, avg) < r.0
    decreases hi - k
  {
    if k == hi then (maxArea, best)
    else
      var area := AreaAt(points, k, a, avg);
      if area > maxArea then Best(points, k + 1, hi, a, avg, area, k)
      else Best(points, k + 1, hi, a, avg, maxArea, best)
  }

  /** Upper end of the averaging range for bucket `i`: the start of bucket
      `i + 2`, clamped to the profile's length. */
  function AverageEnd(n: nat, b: seq<nat>, i: nat): nat
    requires i + 2 < |b|
  {
    if b[i + 2] < n then b[i + 2] else n
  }

  /** Average of the bucket after bucket `i`. */
  function NextAverage(points: seq<DistanceHeight>, b: seq<nat>, i: nat): Vec
    requires Bounds(b, |points|) && i < |b| - 2
  {
    assert b[i + 1] < b[i + 2] && b[i + 1] <= b[|b| - 2];
    Average(points, b[i + 1], AverageEnd(|points|, b, i))
  }

  /** The first point of the non-empty range `[lo, hi)` whose triangle with
      `a` and `avg` is largest: the bucket scan started from the bound -1,
      which every area beats. */
  function LargestTriangle(points: seq<DistanceHeight>, lo: nat, hi: nat, a: Vec, avg: Vec, previous: nat): (r: nat)
    requires lo < hi <= |points|
    ensures lo <= r < hi
    ensures forall j :: lo <= j < hi ==> AreaAt(points, j, a, avg) <= AreaAt(points, r, a, avg)
    ensures forall j :: lo <= j < r ==> AreaAt(points, j, a, avg) < AreaAt(points, r, a, avg)
  {
    assert AreaAt(points, lo, a, avg) >= 0.0;
    Best(points, lo, hi, a, avg, -1.0, previous).1
  }

  /** Position `j` lies in bucket `i`. */
  predicate InBucket(j: nat, b: seq<nat>, i: nat)
    requires i + 1 < |b|
  {
    b[i] <= j < b[i + 1]
  }

  lemma BucketInside(b: seq<nat>, n: nat, i: nat)
    requires Bounds(b, n) && i < |b| - 2
    ensures 1 <= b[i] < b[i + 1] <= n - 1
  {
    assert b[0] <= b[i] && b[i + 1] <= b[|b| - 2];
  }

  /** The point kept from bucket `i` when point `a` was kept before it. */
  function Pick(points: seq<DistanceHeight>, b: seq<nat>, i: nat, a: nat): (r: nat)
    requires Bounds(b, |points|) && i < |b| - 2 && a < |points|
    ensures InBucket(r, b, i)
  {
    BucketInside(b, |points|, i);
    LargestTriangle(points, b[i], b[i + 1], HeightView(points[a]), NextAverage(points, b, i), a)
  }

  /** The points kept from buckets `i` onwards, point `a` kept last. */
  function Picks(points: seq<DistanceHeight>, b: seq<nat>, i: nat, a: nat): (r: seq<nat>)
    requires Bounds(b, |points|) && i <= |b| - 2 && a < |points|
    ensures |r| == |b| - 2 - i
    ensures forall k :: 0 <= k < |r| ==> InBucket(r[k], b, i + k)
    decreases |b| - 2 - i
  {
    if i == |b| - 2 then []
    else
      var p := Pick(points, b, i, a);
      BucketInside(b, |points|, i);
      [p] + Picks(points, b, i + 1, p)
  }

  /** Each pick lies in its own bucket. */
  lemma PicksInBuckets(points: seq<DistanceHeight>, b: seq<nat>, picks: seq<nat>)
    requires Bounds(b, |points|) && picks == Picks(points, b, 0, 0)
    ensures |picks| == |b| - 2
    ensures forall k {:trigger picks[k]} :: 0 <= k < |picks| ==> b[k] <= picks[k] < b[k + 1]
  {
    forall k | 0 <= k < |picks|
      ensures b[k] <= picks[k] < b[k + 1]
    {
      assert InBucket(picks[k], b, 0 + k);
    }
  }

  /** One position per bucket, framed by the first and the last position of
      the profile: because the buckets follow one another inside
      `[1, n - 1)`, the positions strictly increase and stay in range. */
  function FramePicks(picks: seq<nat>, b: seq<nat>, n: nat): (r: seq<nat>)
    requires Bounds(b, n) && |picks| == |b| - 2
    requires forall k {:trigger picks[k]} :: 0 <= k < |picks| ==> b[k] <= picks[k] < b[k + 1]
    ensures |r| == |b| && r[0] == 0 && r[|b| - 1] == n - 1
    ensures forall k {:trigger r[k]} :: 1 <= k < |b| - 1 ==> b[k - 1] <= r[k] < b[k]
    ensures forall k :: 0 <= k < |r| ==> r[k] < n
    ensures StrictlyIncreasing(r)
  {
    var r := [0] + picks + [n - 1];
    assert forall k {:trigger r[k]} :: 1 <= k < |b| - 1 ==> r[k] == picks[k - 1];
    forall i, j | 0 <= i < j < |r|
      ensures r[i] < r[j]
    {
      if 0 < i {
        assert b[i - 1] <= r[i] < b[i];
        if j < |b| - 1 {
          assert b[j - 1] <= r[j] && b[i] <= b[j - 1];
        } else {
          assert b[i] <= b[|b| - 2];
        }
      } else {
        assert b[0] <= b[j - 1] || j == |b| - 1;
      }
    }
    forall k | 0 <= k < |r|
      ensures r[k] < n
    {
      if 0 < k < |b| - 1 {
        assert b[k] <= b[|b| - 2];
      }
    }
    r
  }

  /** The positions the downsampling keeps: the first point, one point per
      bucket, and the last point, in increasing order. */
  function KeptIndices(points: seq<DistanceHeight>, t: nat): (r: seq<nat>)
    requires 2 < t < |points|
    ensures |r| == t
    ensures r[0] == 0 && r[t - 1] == |points| - 1
    ensures forall k :: 0 <= k < |r| ==> r[k] < |points|
    ensures StrictlyIncreasing(r)
  {
    var b := BucketStarts(|points|, t);
    var picks := Picks(points, b, 0, 0);
    PicksInBuckets(points, b, picks);
    FramePicks(picks, b, |points|)
  }

  /** Each kept position between the two ends comes from its own bucket:
      position `k` from bucket `k - 1`. */
  lemma KeptFromOwnBucket(points: seq<DistanceHeight>, t: nat)
    requires 2 < t < |points|
    ensures forall k {:trigger KeptIndices(points, t)[k]} :: 1 <= k < t - 1 ==>
              BucketStart(k - 1, |points|, t) <= KeptIndices(points, t)[k] < BucketStart(k, |points|, t)
  {
    var b := BucketStarts(|points|, t);
    var picks := Picks(points, b, 0, 0);
    PicksInBuckets(points, b, picks);
    var r := FramePicks(picks, b, |points|);
    assert KeptIndices(points, t) == r;
  }

  /** The functional meaning of `largestTriangleThreeBuckets(toCount:)`. */
  function Lttb(points: seq<DistanceHeight>, threshold: int): (r: seq<DistanceHeight>)
    ensures Degenerate(|points|, threshold) ==> r == points
    ensures !Degenerate(|points|, threshold) ==>
              && |r| == threshold
              && r[0] == points[0]
              && r[threshold - 1] == points[|points| - 1]
    ensures IsSubsequence(r, points)
  {
    if Degenerate(|points|, threshold) then
      SubsequenceOfItself(points);
      points
    else
      var idx := KeptIndices(points, threshold);
      SelectIsSubsequence(points, idx);
      Select(points, idx)
  }

  // ----- the loops as written -----

  /** `p` is a valid choice from bucket `i` after point `a`: it lies in the
      bucket, its triangle with `a` and the next bucket's average is the
      largest, and no earlier point of the bucket reaches that area. */
  ghost predicate IsPick(points: seq<DistanceHeight>, b: seq<nat>, i: nat, a: nat, p: nat)
    requires Bounds(b, |points|) && i < |b| - 2 && a < |points|
  {
    && InBucket(p, b, i)
    && p < |points|
    && (forall j :: b[i] <= j < b[i + 1] && j < |points| ==>
          AreaAt(points, j, HeightView(points[a]), NextAverage(points, b, i))
          <= AreaAt(points, p, HeightView(points[a]), NextAverage(points, b, i)))
    && (forall j :: b[i] <= j < p ==>
          AreaAt(points, j, HeightView(points[a]), NextAverage(points, b, i))
          < AreaAt(points, p, HeightView(points[a]), NextAverage(points, b, i)))
  }

  /** The pick is such a choice, and the only one: the first largest
      triangle of a bucket is unique. */
  lemma PickIsUnique(points: seq<DistanceHeight>, b: seq<nat>, i: nat, a: nat, p: nat)
    requires Bounds(b, |points|) && i < |b| - 2 && a < |points|
    ensures IsPick(points, b, i, a, Pick(points, b, i, a))
    ensures IsPick(points, b, i, a, p) ==> p == Pick(points, b, i, a)
  {
    BucketInside(b, |points|, i);
  }

  /** `largestTriangleThreeBuckets(toCount:)` as written: the early return,
      then the first point, one point per bucket (`SampleBuckets`), and the
      last point. It computes `Lttb`. The bucket bounds, which the loop
      recomputes from the bucket width in each iteration, are computed once
      up front here. */
  method LargestTriangleThreeBuckets(points: seq<DistanceHeight>, threshold: int) returns (sampled: seq<DistanceHeight>)
    ensures sampled == Lttb(points, threshold)
  {
    if |points| == 0 || threshold <= 2 || threshold >= |points| {
      return points;
    }
    var t: nat := threshold;
    var b := BucketStarts(|points|, t);
    ghost var picked;
    sampled, picked := SampleBuckets(points, b);
    sampled := sampled + [points[|points| - 1]];
    SampledIsLttb(points, t, b, picked, sampled);
  }

  /** Taking bucket `i`'s pick moves it from the picks still to come to
      the picks made. */
  lemma PicksStep(points: seq<DistanceHeight>, b: seq<nat>, i: nat, a: nat, made: seq<nat>)
    requires Bounds(b, |points|) && i < |b| - 2 && a < |points|
    ensures made + Picks(points, b, i, a)
         == (made + [Pick(points, b, i, a)]) + Picks(points, b, i + 1, Pick(points, b, i, a))
  {
    var p := Pick(points, b, i, a);
    assert Picks(points, b, i, a) == [p] + Picks(points, b, i + 1, p);
    assert made + ([p] + Picks(points, b, i + 1, p)) == (made + [p]) + Picks(points, b, i + 1, p);
  }

  /** The bucket loop: the first point, then for each bucket the point of
      largest triangle with the point kept before it and the next bucket's
      average. `picked` records the positions taken. */
  method SampleBuckets(points: seq<DistanceHeight>, b: seq<nat>) returns (sampled: seq<DistanceHeight>, ghost picked: seq<nat>)
    requires Bounds(b, |points|)
    ensures picked == Picks(points, b, 0, 0)
    ensures |sampled| == |b| - 1 && sampled[0] == points[0]
    ensures forall k :: 0 <= k < |b| - 2 ==> sampled[k + 1] == points[picked[k]]
  {
    var n := |points|;
    sampled := [];
    var a := 0;
    var maxAreaPoint := DistanceHeight(0.0, 0.0);
    var nextA := 0;
    sampled := sampled + [points[a]];
    picked := [];
    for i := 0 to |b| - 2
      invariant |picked| == i
      invariant a == nextA && a < n
      invariant Picks(points, b, 0, 0) == picked + Picks(points, b, i, a)
      invariant |sampled| == i + 1 && sampled[0] == points[0]
      invariant forall k :: 0 <= k < i ==> picked[k] < n && sampled[k + 1] == points[picked[k]]
    {
      var avgX, avgY := NextBucketAverage(points, b, i);
      maxAreaPoint, nextA := LargestTriangleInBucket(points, b, i, a, avgX, avgY, maxAreaPoint, nextA);
      ghost var previous := picked;
      ghost var previousSampled := sampled;
      sampled := sampled + [maxAreaPoint];
      picked := picked + [nextA];
      assert forall k :: 0 <= k < i ==> picked[k] == previous[k] && sampled[k + 1] == previousSampled[k + 1];
      PicksStep(points, b, i, a, previous);
      a := nextA;
    }
  }

  lemma SampledIsLttb(points: seq<DistanceHeight>, t: nat, b: seq<nat>, picked: seq<nat>, sampled: seq<DistanceHeight>)
    requires 2 < t < |points| && b == BucketStarts(|points|, t)
    requires picked == Picks(points, b, 0, 0)
    requires |sampled| == t && sampled[0] == points[0] && sampled[t - 1] == points[|points| - 1]
    requires forall k :: 0 <= k < t - 2 ==> sampled[k + 1] == points[picked[k]]
    ensures sampled == Lttb(points, t)
  {
    var kept := KeptIndices(points, t);
    KeptAreFramedPicks(points, t, b);
    var lttb := Select(points, kept);
    assert Lttb(points, t) == lttb;
    forall k | 0 <= k < t
      ensures sampled[k] == lttb[k]
    {
      if 0 < k < t - 1 {
        assert kept[k] == picked[k - 1];
      }
    }
  }

  lemma KeptAreFramedPicks(points: seq<DistanceHeight>, t: nat, b: seq<nat>)
    requires 2 < t < |points| && b == BucketStarts(|points|, t)
    ensures KeptIndices(points, t) == [0] + Picks(points, b, 0, 0) + [|points| - 1]
  {
    PicksInBuckets(points, b, Picks(points, b, 0, 0));
  }

  /** The averaging loop of iteration `i`: the mean of the points from the
      start of bucket `i + 1` to the start of bucket `i + 2`, clamped to the
      profile's end. The range is never empty. */
  method NextBucketAverage(points: seq<DistanceHeight>, b: seq<nat>, i: nat) returns (avgX: real, avgY: real)
    requires Bounds(b, |points|) && i < |b| - 2
    ensures Vec(avgX, avgY) == NextAverage(points, b, i)
  {
    var n := |points|;
    avgX := 0.0;
    avgY := 0.0;
    var avgRangeStart := b[i + 1];
    var avgRangeEnd := b[i + 2];
    avgRangeEnd := if avgRangeEnd < n then avgRangeEnd else n;
    assert b[i + 1] < b[i + 2] && b[i + 1] <= b[|b| - 2];
    var avgRangeLength := avgRangeEnd - avgRangeStart;
    ghost var avgLo := avgRangeStart;
    while avgRangeStart < avgRangeEnd
      invariant avgLo <= avgRangeStart <= avgRangeEnd
      invariant Vec(avgX, avgY) == Sum(points, avgLo, avgRangeStart)
    {
      avgX := avgX + points[avgRangeStart].distance;
      avgY := avgY + points[avgRangeStart].elevation;
      avgRangeStart := avgRangeStart + 1;
    }
    avgX := avgX / avgRangeLength as real;
    avgY := avgY / avgRangeLength as real;
  }

  /** The area loop of iteration `i`, with `a` the point kept last and
      `maxAreaPoint`, `nextA` the values left by the previous iteration:
      they are overwritten on the bucket's first point, so the result is
      the bucket's pick. */
  method LargestTriangleInBucket(points: seq<DistanceHeight>, b: seq<nat>, i: nat, a: nat, avgX: real, avgY: real,
                                 maxAreaPoint0: DistanceHeight, nextA0: nat)
    returns (maxAreaPoint: DistanceHeight, nextA: nat)
    requires Bounds(b, |points|) && i < |b| - 2 && a < |points| && nextA0 == a
    requires Vec(avgX, avgY) == NextAverage(points, b, i)
    ensures nextA == Pick(points, b, i, a)
    ensures maxAreaPoint == points[nextA]
  {
    var n := |points|;
    BucketInside(b, n, i);
    maxAreaPoint, nextA := maxAreaPoint0, nextA0;
    var rangeOffs := b[i];
    var rangeTo := b[i + 1];
    var pointAx := points[a].distance;
    var pointAy := points[a].elevation;
    var maxArea := -1.0;
    ghost var lo := rangeOffs;
    while rangeOffs < rangeTo
      invariant lo <= rangeOffs <= rangeTo
      invariant nextA < n
      invariant rangeOffs == lo ==> maxArea == -1.0 && nextA == a
      invariant rangeOffs > lo ==> maxAreaPoint == points[nextA]
      invariant Best(points, rangeOffs, rangeTo, Vec(pointAx, pointAy), Vec(avgX, avgY), maxArea, nextA)
             == Best(points, lo, rangeTo, Vec(pointAx, pointAy), Vec(avgX, avgY), -1.0, a)
    {
      var area := TriangleArea(Vec(pointAx, pointAy), HeightView(points[rangeOffs]), Vec(avgX, avgY));
      if area > maxArea {
        maxArea := area;
        maxAreaPoint := points[rangeOffs];
        nextA := rangeOffs;
      }
      rangeOffs := rangeOffs + 1;
    }
    assert AreaAt(points, lo, Vec(pointAx, pointAy), Vec(avgX, avgY)) >= 0.0;
    assert IsPick(points, b, i, a, nextA);
    PickIsUnique(points, b, i, a, nextA);
  }
}
