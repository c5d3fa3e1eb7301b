/** Douglas-Peucker simplification of a point sequence (Simplifiable.swift).
    The recursion is modelled on the indices it keeps: `Step` returns the
    interior indices of `[first, last]` that survive, in order, and
    `Simplify` selects the corresponding points. */
module Simplification {
  import opened Geometry
  import opened Subsequences

  /** Squared distance from point `j` to the chord from point `first` to
      point `last`. */
  function ChordDistance(pts: seq<Vec>, j: nat, first: nat, last: nat): real
    requires j < |pts| && first < |pts| && last < |pts|
  {
    SquaredDistanceToSegment(pts[j], pts[first], pts[last])
  }

  /** Every point strictly between `first` and `last` lies within
      `sqTolerance` of the chord joining them. */
  ghost predicate WithinChord(pts: seq<Vec>, first: nat, last: nat, sqTolerance: real)
    requires first < |pts| && last < |pts|
  {
    forall j :: first < j < last ==> ChordDistance(pts, j, first, last) <= sqTolerance
  }

  /** The scan for the farthest interior point, continuing at `cur` with the
      running maximum `maxSq` found at `index`. The comparison is strict, so
      the first point reaching the maximum wins; when no point beats the
      starting bound the bound and the starting index come back unchanged. */
  function Farthest(pts: seq<Vec>, first: nat, last: nat, cur: nat, maxSq: real, index: nat): (r: (real, nat))
    requires first < cur <= last < |pts|
    ensures r.0 >= maxSq
    ensures forall j :: cur <= j < last ==> ChordDistance(pts, j, first, last) <= r.0
    ensures r.0 == maxSq ==> r.1 == index
    ensures r.0 > maxSq ==>
              && cur <= r.1 < last
              && ChordDistance(pts, r.1, first, last) == r.0
              && forall j :: cur <= j < r.1 ==> ChordDistance(pts, j, first, last) < r.0
    decreases last - cur
  {
    if cur == last then (maxSq, index)
    else
      var d := ChordDistance(pts, cur, first, last);
      if d > maxSq then Farthest(pts, first, last, cur + 1, d, cur)
      else Farthest(pts, first, last, cur + 1, maxSq, index)
  }

  /** One Douglas-Peucker step on `[first, last]`: the interior indices kept,
      left part, then the pivot, then right part. The pivot is kept only when
      its squared distance exceeds `sqTolerance`; the search starts from the
      bound `sqTolerance` and the array's start index 0. */
  function Step(pts: seq<Vec>, first: nat, last: nat, sqTolerance: real): (r: seq<nat>)
    requires first < |pts| && last < |pts|
    ensures AllBetween(r, first, last)
    ensures StrictlyIncreasing(r)
    decreases if last > first then last - first else 0
  {
    if last <= first then []
    else
      var (maxSq, index) := Farthest(pts, first, last, first + 1, sqTolerance, 0);
      if maxSq > sqTolerance then
        var left := if index - first > 1 then Step(pts, first, index, sqTolerance) else [];
        var right := if last - index > 1 then Step(pts, index, last, sqTolerance) else [];
        JoinAroundPivot(left, index, right, first, last);
        left + [index] + right
      else []
  }

  /** The indices `simplify(tolerance:)` keeps of a sequence whose points
      have the plane coordinates `pts`. */
  function KeptIndices(pts: seq<Vec>, sqTolerance: real): (r: seq<nat>)
    ensures |pts| < 2 ==> r == []
    ensures |pts| >= 2 ==> |r| >= 2 && r[0] == 0 && r[|r| - 1] == |pts| - 1
    ensures forall k :: 0 <= k < |r| ==> r[k] < |pts|
    ensures StrictlyIncreasing(r)
    ensures |r| <= |pts|
    ensures WithinChords(pts, r, sqTolerance)
  {
    if |pts| < 2 then []
    else
      var last := |pts| - 1;
      var r := [0] + Step(pts, 0, last, sqTolerance) + [last];
      IncreasingLength(r, -1, |pts|);
      StepWithinChords(pts, 0, last, sqTolerance);
      r
  }

  function Views<T>(points: seq<T>, view: T -> Vec): (r: seq<Vec>)
    ensures |r| == |points|
    ensures forall i :: 0 <= i < |r| ==> r[i] == view(points[i])
  {
    seq(|points|, i requires 0 <= i < |points| => view(points[i]))
  }

  /** `simplify(tolerance:)`: Douglas-Peucker over any point type, `view`
      giving the two coordinates (`x`, `y`) the type exposes. Fewer than two
      points give the empty sequence; otherwise the result keeps both ends
      and is a subsequence of the input. */
  function Simplify<T>(points: seq<T>, view: T -> Vec, tolerance: real): (r: seq<T>)
    ensures |points| < 2 ==> r == []
    ensures |points| >= 2 ==>
              && 2 <= |r| <= |points|
              && r[0] == points[0]
              && r[|r| - 1] == points[|points| - 1]
    ensures IsSubsequence(r, points)
  {
    var idx := KeptIndices(Views(points, view), Square(tolerance));
    SelectIsSubsequence(points, idx);
    Select(points, idx)
  }

  /** On the plane coordinates: only the two ends are kept exactly when
      every interior point lies within `sqTolerance` of the chord joining
      them. */
  lemma KeptEndpointsOnlyIff(pts: seq<Vec>, sqTolerance: real)
    requires |pts| >= 2
    ensures |KeptIndices(pts, sqTolerance)| == 2 <==>
            WithinChord(pts, 0, |pts| - 1, sqTolerance)
    ensures |KeptIndices(pts, sqTolerance)| == 2 ==> KeptIndices(pts, sqTolerance) == [0, |pts| - 1]
  {
    var last := |pts| - 1;
    var (maxSq, index) := Farthest(pts, 0, last, 1, sqTolerance, 0);
    var kept := KeptIndices(pts, sqTolerance);
    assert kept == [0] + Step(pts, 0, last, sqTolerance) + [last];
    if WithinChord(pts, 0, last, sqTolerance) {
      assert maxSq == sqTolerance;
      assert kept == [0, last];
    } else {
      var j :| 0 < j < last && ChordDistance(pts, j, 0, last) > sqTolerance;
      assert maxSq > sqTolerance;
      assert |Step(pts, 0, last, sqTolerance)| >= 1;
    }
  }

  /** When every interior point lies within `tolerance` of the chord joining
      the two ends, only the two ends are kept, and conversely. */
  lemma EndpointsOnlyIffWithinTolerance<T>(points: seq<T>, view: T -> Vec, tolerance: real)
    requires |points| >= 2
    ensures |Simplify(points, view, tolerance)| == 2 <==>
            forall j :: 0 < j < |points| - 1 ==>
              SquaredDistanceToSegment(view(points[j]), view(points[0]), view(points[|points| - 1])) <= Square(tolerance)
    ensures |Simplify(points, view, tolerance)| == 2 ==>
            Simplify(points, view, tolerance) == [points[0], points[|points| - 1]]
  {
    var pts := Views(points, view);
    var last := |points| - 1;
    assert forall j :: 0 < j < last ==>
      ChordDistance(pts, j, 0, last) == SquaredDistanceToSegment(view(points[j]), view(points[0]), view(points[last]));
    KeptEndpointsOnlyIff(pts, Square(tolerance));
  }

  /** Points lying in order on the chord between the two ends are at
      distance zero from it, so within any tolerance. */
  lemma CollinearWithinTolerance(pts: seq<Vec>, tolerance: real, s: seq<real>)
    requires |pts| >= 2 && |s| == |pts|
    requires forall j :: 0 < j < |pts| - 1 ==>
               && 0.0 <= s[j] <= 1.0
               && pts[j].x == pts[0].x + s[j] * (pts[|pts| - 1].x - pts[0].x)
               && pts[j].y == pts[0].y + s[j] * (pts[|pts| - 1].y - pts[0].y)
    ensures WithinChord(pts, 0, |pts| - 1, Square(tolerance))
  {
    var last := |pts| - 1;
    forall j | 0 < j < last
      ensures ChordDistance(pts, j, 0, last) <= Square(tolerance)
    {
      OnSegmentHasZeroDistance(pts[j], pts[0], pts[last], s[j]);
      SquareNonNegative(tolerance);
    }
  }

  /** Points lying in order along the chord between the two ends (for
      instance a straight, evenly climbing stretch of profile) reduce to
      the two ends, for any tolerance, zero included. */
  lemma CollinearReducesToEndpoints<T>(points: seq<T>, view: T -> Vec, tolerance: real, s: seq<real>)
    requires |points| >= 2 && |s| == |points|
    requires forall j :: 0 < j < |points| - 1 ==>
               && 0.0 <= s[j] <= 1.0
               && view(points[j]).x == view(points[0]).x + s[j] * (view(points[|points| - 1]).x - view(points[0]).x)
               && view(points[j]).y == view(points[0]).y + s[j] * (view(points[|points| - 1]).y - view(points[0]).y)
    ensures Simplify(points, view, tolerance) == [points[0], points[|points| - 1]]
  {
    var pts := Views(points, view);
    CollinearWithinTolerance(pts, tolerance, s);
    KeptEndpointsOnlyIff(pts, Square(tolerance));
    assert Simplify(points, view, tolerance) == Select(points, [0, |points| - 1]);
  }

  /** Every point strictly between two consecutive kept indices lies within
      `sqTolerance` of the chord joining them. */
  ghost predicate WithinChords(pts: seq<Vec>, idx: seq<nat>, sqTolerance: real)
    requires forall k :: 0 <= k < |idx| ==> idx[k] < |pts|
  {
    forall k :: 0 <= k < |idx| - 1 ==> WithinChord(pts, idx[k], idx[k + 1], sqTolerance)
  }

  /** Two runs sharing their meeting index join into one run whose chords
      are those of the two parts. */
  lemma WithinChordsJoin(pts: seq<Vec>, a: seq<nat>, b: seq<nat>, sqTolerance: real)
    requires |a| >= 1 && |b| >= 1 && a[|a| - 1] == b[0]
    requires forall k :: 0 <= k < |a| ==> a[k] < |pts|
    requires forall k :: 0 <= k < |b| ==> b[k] < |pts|
    requires WithinChords(pts, a, sqTolerance) && WithinChords(pts, b, sqTolerance)
    ensures forall k :: 0 <= k < |a + b[1..]| ==> (a + b[1..])[k] < |pts|
    ensures WithinChords(pts, a + b[1..], sqTolerance)
  {
    var c := a + b[1..];
    forall k | 0 <= k < |c| - 1
      ensures WithinChord(pts, c[k], c[k + 1], sqTolerance)
    {
      if k < |a| - 1 {
        assert c[k] == a[k] && c[k + 1] == a[k + 1];
      } else {
        assert c[k] == b[k - |a| + 1] && c[k + 1] == b[k - |a| + 2];
      }
    }
  }

  /** A step whose scan finds a point beyond `sqTolerance` keeps that pivot
      between the steps on either side of it. */
  lemma StepAroundPivot(pts: seq<Vec>, first: nat, last: nat, sqTolerance: real)
    requires first < last < |pts|
    requires Farthest(pts, first, last, first + 1, sqTolerance, 0).0 > sqTolerance
    ensures var index := Farthest(pts, first, last, first + 1, sqTolerance, 0).1;
            && first < index < last
            && Step(pts, first, last, sqTolerance)
               == (if index - first > 1 then Step(pts, first, index, sqTolerance) else [])
                  + [index]
                  + (if last - index > 1 then Step(pts, index, last, sqTolerance) else [])
  {
  }

  /** A step whose scan finds no point beyond `sqTolerance` keeps nothing. */
  lemma StepWithoutPivot(pts: seq<Vec>, first: nat, last: nat, sqTolerance: real)
    requires first < last < |pts|
    ensures Farthest(pts, first, last, first + 1, sqTolerance, 0).0 <= sqTolerance ==>
              Step(pts, first, last, sqTolerance) == []
  {
  }

  /** A step on two adjacent indices keeps nothing, so the guards around
      the recursive calls can be dropped: a step with a pivot is the step
      up to the pivot, the pivot, and the step from it. */
  lemma StepSplitsAtPivot(pts: seq<Vec>, first: nat, last: nat, sqTolerance: real)
    requires first < last < |pts|
    ensures var f := Farthest(pts, first, last, first + 1, sqTolerance, 0);
            f.0 > sqTolerance ==>
              && first < f.1 < last
              && Step(pts, first, last, sqTolerance)
                 == Step(pts, first, f.1, sqTolerance) + [f.1] + Step(pts, f.1, last, sqTolerance)
  {
    var f := Farthest(pts, first, last, first + 1, sqTolerance, 0);
    if f.0 > sqTolerance {
      StepAroundPivot(pts, first, last, sqTolerance);
      var index := f.1;
      if index - first == 1 {
        assert Farthest(pts, first, index, first + 1, sqTolerance, 0).0 == sqTolerance;
        StepWithoutPivot(pts, first, index, sqTolerance);
      }
      if last - index == 1 {
        assert Farthest(pts, index, last, index + 1, sqTolerance, 0).0 == sqTolerance;
        StepWithoutPivot(pts, index, last, sqTolerance);
      }
    }
  }

  /** A run with a pivot is the run up to the pivot joined to the run from it. */
  lemma RunSplitsAtPivot(first: nat, left: seq<nat>, index: nat, right: seq<nat>, last: nat)
    ensures [first] + (left + [index] + right) + [last]
            == ([first] + left + [index]) + ([index] + right + [last])[1..]
  {
    assert ([index] + right + [last])[1..] == right + [last];
  }

  /** One step, framed by its own ends, leaves every dropped point within
      `sqTolerance` of the chord between the kept indices around it. */
  lemma {:induction false} StepWithinChords(pts: seq<Vec>, first: nat, last: nat, sqTolerance: real)
    requires first < last < |pts|
    ensures var run := [first] + Step(pts, first, last, sqTolerance) + [last];
            && (forall k :: 0 <= k < |run| ==> run[k] < |pts|)
            && WithinChords(pts, run, sqTolerance)
    decreases last - first
  {
    var (maxSq, index) := Farthest(pts, first, last, first + 1, sqTolerance, 0);
    var run := [first] + Step(pts, first, last, sqTolerance) + [last];
    if maxSq > sqTolerance {
      StepAroundPivot(pts, first, last, sqTolerance);
      var left := if index - first > 1 then Step(pts, first, index, sqTolerance) else [];
      var right := if last - index > 1 then Step(pts, index, last, sqTolerance) else [];
      var a := [first] + left + [index];
      var b := [index] + right + [last];
      RunSplitsAtPivot(first, left, index, right, last);
      if index - first > 1 {
        StepWithinChords(pts, first, index, sqTolerance);
      } else {
        assert a == [first, index];
      }
      if last - index > 1 {
        StepWithinChords(pts, index, last, sqTolerance);
      } else {
        assert b == [index, last];
      }
      WithinChordsJoin(pts, a, b, sqTolerance);
    } else {
      assert Step(pts, first, last, sqTolerance) == [];
      assert run == [first, last];
    }
  }

  /** Douglas-Peucker's guarantee: each point `simplify(tolerance:)` drops
      lies within `tolerance` of the segment joining the two kept points
      around it. */
  lemma DroppedPointsWithinTolerance<T>(points: seq<T>, view: T -> Vec, tolerance: real)
    ensures var idx := KeptIndices(Views(points, view), Square(tolerance));
            && Simplify(points, view, tolerance) == Select(points, idx)
            && forall k, j :: 0 <= k < |idx| - 1 && idx[k] < j < idx[k + 1] ==>
                 SquaredDistanceToSegment(view(points[j]), view(points[idx[k]]), view(points[idx[k + 1]]))
                   <= Square(tolerance)
  {
    var pts := Views(points, view);
    var idx := KeptIndices(pts, Square(tolerance));
    forall k, j | 0 <= k < |idx| - 1 && idx[k] < j < idx[k + 1]
      ensures SquaredDistanceToSegment(view(points[j]), view(points[idx[k]]), view(points[idx[k + 1]]))
                <= Square(tolerance)
    {
      assert WithinChord(pts, idx[k], idx[k + 1], Square(tolerance));
      assert ChordDistance(pts, j, idx[k], idx[k + 1]) <= Square(tolerance);
    }
  }

  /** The scan's answer is determined by the first strict maximum: an index
      `t` whose distance `M` beats the starting bound, bounds every scanned
      distance, and is strictly above every distance scanned before it, is
      what the scan returns. */
  lemma FarthestIsFirstMaximum(pts: seq<Vec>, first: nat, last: nat, cur: nat, maxSq: real, index: nat, t: nat, m: real)
    requires first < cur <= t < last < |pts|
    requires maxSq < m == ChordDistance(pts, t, first, last)
    requires forall j :: cur <= j < last ==> ChordDistance(pts, j, first, last) <= m
    requires forall j :: cur <= j < t ==> ChordDistance(pts, j, first, last) < m
    ensures Farthest(pts, first, last, cur, maxSq, index) == (m, t)
  {
    var r := Farthest(pts, first, last, cur, maxSq, index);
    assert r.0 >= m > maxSq;
    assert ChordDistance(pts, r.1, first, last) == r.0 == m;
  }

  /** Where the step on `[kept[o], kept[m]]` keeps exactly the positions
      between `o` and `m`, and there is one, its pivot is kept at some
      position `pos`, and the two recursive steps keep exactly the positions
      on either side of `pos`. */
  lemma PivotSplitsKept(pts: seq<Vec>, kept: seq<nat>, o: nat, m: nat, sqTolerance: real) returns (pos: nat)
    requires forall i :: 0 <= i < |kept| ==> kept[i] < |pts|
    requires o + 1 < m < |kept| && kept[o] < kept[m]
    requires Step(pts, kept[o], kept[m], sqTolerance) == kept[o + 1..m]
    ensures PivotAt(pts, kept, o, m, sqTolerance, pos, Farthest(pts, kept[o], kept[m], kept[o] + 1, sqTolerance, 0))
  {
    var first, last := kept[o], kept[m];
    StepWithoutPivot(pts, first, last, sqTolerance);
    var f := Farthest(pts, first, last, first + 1, sqTolerance, 0);
    assert f.0 > sqTolerance;
    StepSplitsAtPivot(pts, first, last, sqTolerance);
    var p := f.1;
    var left, right := Step(pts, first, p, sqTolerance), Step(pts, p, last, sqTolerance);
    SplitAtPivot(kept, o, m, left, p, right);
    pos :| o < pos < m && kept[pos] == p && kept[o + 1..pos] == left && kept[pos + 1..m] == right;
  }

  /** `pos` is where the pivot `f.1` of the step on `[kept[o], kept[m]]`
      sits in `kept`, and each side's step keeps exactly its positions. */
  ghost predicate PivotAt(pts: seq<Vec>, kept: seq<nat>, o: nat, m: nat, sqTolerance: real, pos: nat, f: (real, nat))
    requires forall i :: 0 <= i < |kept| ==> kept[i] < |pts|
    requires o < m < |kept|
  {
    && o < pos < m
    && f.0 > sqTolerance
    && kept[pos] == f.1
    && Step(pts, kept[o], kept[pos], sqTolerance) == kept[o + 1..pos]
    && Step(pts, kept[pos], kept[m], sqTolerance) == kept[pos + 1..m]
  }

  /** On a subsequence `q` of `pts` taken at the positions `kept`, where the
      step on `[kept[o], kept[m]]` keeps exactly the positions between them,
      the step on `[o, m]` of `q` keeps every position between `o` and `m`:
      each scan on `q` finds the same first maximum. */
  lemma {:induction false} StepKeepsKept(pts: seq<Vec>, q: seq<Vec>, kept: seq<nat>, o: nat, m: nat, sqTolerance: real)
    requires |q| == |kept|
    requires forall i :: 0 <= i < |kept| ==> kept[i] < |pts| && q[i] == pts[kept[i]]
    requires StrictlyIncreasing(kept)
    requires o < m < |kept|
    requires Step(pts, kept[o], kept[m], sqTolerance) == kept[o + 1..m]
    ensures |Step(q, o, m, sqTolerance)| == m - o - 1
    decreases m - o
  {
    if m - o == 1 {
      assert Farthest(q, o, m, o + 1, sqTolerance, 0).0 == sqTolerance;
      StepWithoutPivot(q, o, m, sqTolerance);
    } else {
      var first, last := kept[o], kept[m];
      var f := Farthest(pts, first, last, first + 1, sqTolerance, 0);
      var pos := PivotSplitsKept(pts, kept, o, m, sqTolerance);
      forall j | o + 1 <= j < m
        ensures ChordDistance(q, j, o, m) <= f.0
        ensures j < pos ==> ChordDistance(q, j, o, m) < f.0
      {
        assert ChordDistance(q, j, o, m) == ChordDistance(pts, kept[j], first, last);
        assert first < kept[j] < last;
        assert j < pos ==> kept[j] < kept[pos];
      }
      assert ChordDistance(q, pos, o, m) == ChordDistance(pts, f.1, first, last) == f.0;
      FarthestIsFirstMaximum(q, o, m, o + 1, sqTolerance, 0, pos, f.0);
      StepSplitsAtPivot(q, o, m, sqTolerance);
      StepKeepsKept(pts, q, kept, o, pos, sqTolerance);
      StepKeepsKept(pts, q, kept, pos, m, sqTolerance);
    }
  }

  /** The kept indices are the two ends around one step over the whole
      sequence. */
  lemma KeptAroundStep(pts: seq<Vec>, sqTolerance: real)
    requires |pts| >= 2
    ensures KeptIndices(pts, sqTolerance) == [0] + Step(pts, 0, |pts| - 1, sqTolerance) + [|pts| - 1]
  {
  }

  /** On the plane coordinates: simplifying the kept points again keeps
      every one of them. */
  lemma KeptIndicesOfKept(pts: seq<Vec>, sqTolerance: real)
    ensures var kept := KeptIndices(pts, sqTolerance);
            |KeptIndices(Select(pts, kept), sqTolerance)| == |kept|
  {
    var kept := KeptIndices(pts, sqTolerance);
    var q := Select(pts, kept);
    if |pts| >= 2 {
      var last := |pts| - 1;
      var n := |kept|;
      KeptAroundStep(pts, sqTolerance);
      assert kept[1..n - 1] == Step(pts, 0, last, sqTolerance);
      StepKeepsKept(pts, q, kept, 0, n - 1, sqTolerance);
      KeptAroundStep(q, sqTolerance);
      var inner := Step(q, 0, n - 1, sqTolerance);
      assert |q| == n && |inner| == n - 2;
      assert |KeptIndices(q, sqTolerance)| == |[0] + inner + [n - 1]| == n;
    } else {
      assert q == [];
    }
  }

  /** `simplify(tolerance:)` is idempotent: simplifying its result with the
      same tolerance changes nothing. */
  lemma SimplifyIdempotent<T>(points: seq<T>, view: T -> Vec, tolerance: real)
    ensures Simplify(Simplify(points, view, tolerance), view, tolerance) == Simplify(points, view, tolerance)
  {
    var pts := Views(points, view);
    var kept := KeptIndices(pts, Square(tolerance));
    var r := Simplify(points, view, tolerance);
    assert r == Select(points, kept);
    assert Views(r, view) == Select(pts, kept);
    KeptIndicesOfKept(pts, Square(tolerance));
    SelectEveryPosition(r, KeptIndices(Views(r, view), Square(tolerance)));
  }
}
