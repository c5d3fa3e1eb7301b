/** Index-level facts shared by the two point-reduction algorithms: both
    return an ordered selection of their input's elements. */
module Subsequences {

  ghost predicate StrictlyIncreasing(s: seq<nat>) {
    forall i, j :: 0 <= i < j < |s| ==> s[i] < s[j]
  }

  ghost predicate AllBetween(s: seq<nat>, lo: int, hi: int) {
    forall k :: 0 <= k < |s| ==> lo < s[k] < hi
  }

  /** `r` is `points` with some elements left out: `idx` lists, in strictly
      increasing order, the positions of `points` that `r` keeps. */
  ghost predicate SubsequenceAt<T>(r: seq<T>, points: seq<T>, idx: seq<nat>) {
    && |idx| == |r|
    && StrictlyIncreasing(idx)
    && (forall k :: 0 <= k < |idx| ==> idx[k] < |points| && r[k] == points[idx[k]])
  }

  ghost predicate IsSubsequence<T>(r: seq<T>, points: seq<T>) {
    exists idx :: SubsequenceAt(r, points, idx)
  }

  /** The elements of `points` at the positions `idx`, in that order. */
  function Select<T>(points: seq<T>, idx: seq<nat>): (r: seq<T>)
    requires forall k :: 0 <= k < |idx| ==> idx[k] < |points|
    ensures |r| == |idx|
    ensures forall k :: 0 <= k < |idx| ==> r[k] == points[idx[k]]
  {
    seq(|idx|, k requires 0 <= k < |idx| => points[idx[k]])
  }

  /** Every sequence is a subsequence of itself: keep every position. */
  lemma SubsequenceOfItself<T>(s: seq<T>)
    ensures IsSubsequence(s, s)
  {
    assert SubsequenceAt(s, s, seq(|s|, k => k));
  }

  /** Selecting elements at strictly increasing positions gives a
      subsequence. */
  lemma SelectIsSubsequence<T>(points: seq<T>, idx: seq<nat>)
    requires forall k :: 0 <= k < |idx| ==> idx[k] < |points|
    requires StrictlyIncreasing(idx)
    ensures IsSubsequence(Select(points, idx), points)
  {
    assert SubsequenceAt(Select(points, idx), points, idx);
  }

  /** A strictly increasing run of integers strictly between `lo` and `hi`
      has at most `hi - lo - 1` elements. */
  lemma {:induction false} IncreasingLength(s: seq<nat>, lo: int, hi: int)
    requires lo < hi && StrictlyIncreasing(s) && AllBetween(s, lo, hi)
    ensures |s| <= hi - lo - 1
    decreases |s|
  {
    if |s| > 0 {
      assert lo < s[0];
      assert AllBetween(s[1..], s[0], hi);
      IncreasingLength(s[1..], s[0], hi);
    }
  }

  /** An increasing run below a pivot, the pivot, and an increasing run
      above it form one increasing run. */
  lemma JoinAroundPivot(left: seq<nat>, pivot: nat, right: seq<nat>, lo: int, hi: int)
    requires lo < pivot < hi
    requires StrictlyIncreasing(left) && AllBetween(left, lo, pivot)
    requires StrictlyIncreasing(right) && AllBetween(right, pivot, hi)
    ensures StrictlyIncreasing(left + [pivot] + right)
    ensures AllBetween(left + [pivot] + right, lo, hi)
  {
    var joined := left + [pivot] + right;
    forall i, j | 0 <= i < j < |joined| ensures joined[i] < joined[j] {
      if j < |left| {
        assert joined[i] == left[i] && joined[j] == left[j];
      } else if i > |left| {
        assert joined[i] == right[i - |left| - 1] && joined[j] == right[j - |left| - 1];
      }
    }
  }

  /** The `k`-th element of a strictly increasing run of naturals is at
      least `k`. */
  lemma {:induction false} AtLeastPosition(s: seq<nat>, k: nat)
    requires StrictlyIncreasing(s) && k < |s|
    ensures s[k] >= k
    decreases k
  {
    if k > 0 {
      AtLeastPosition(s, k - 1);
    }
  }

  /** The `k`-th element of a strictly increasing run of `|s|` naturals
      below `|s|` is at most `k`. */
  lemma {:induction false} AtMostPosition(s: seq<nat>, k: nat)
    requires StrictlyIncreasing(s) && k < |s|
    requires forall i :: 0 <= i < |s| ==> s[i] < |s|
    ensures s[k] <= k
    decreases |s| - k
  {
    if k < |s| - 1 {
      AtMostPosition(s, k + 1);
    }
  }

  /** Selecting, in increasing order, as many positions of `points` as it
      has gives `points` back. */
  lemma SelectEveryPosition<T>(points: seq<T>, idx: seq<nat>)
    requires |idx| == |points| && StrictlyIncreasing(idx)
    requires forall k :: 0 <= k < |idx| ==> idx[k] < |points|
    ensures Select(points, idx) == points
  {
    forall k | 0 <= k < |idx| ensures idx[k] == k {
      AtLeastPosition(idx, k);
      AtMostPosition(idx, k);
    }
  }

  /** Where the interior `s[o + 1..m]` of a run is a left part, a pivot and a
      right part, the pivot sits at a position between `o` and `m` (namely
      `o + 1 + |left|`) that divides the two parts. */
  lemma SplitAtPivot(s: seq<nat>, o: nat, m: nat, left: seq<nat>, pivot: nat, right: seq<nat>)
    requires o < m <= |s|
    requires s[o + 1..m] == left + [pivot] + right
    ensures exists pos: nat :: o < pos < m && s[pos] == pivot && s[o + 1..pos] == left && s[pos + 1..m] == right
  {
    var pos := o + 1 + |left|;
    assert s[o + 1..m][|left|] == pivot;
    assert s[o + 1..pos] == s[o + 1..m][..|left|];
    assert s[pos + 1..m] == s[o + 1..m][|left| + 1..];
  }
}
