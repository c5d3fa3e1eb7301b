# GPXEditor core in Dafny

A model of the computational core of GPXEditor's editor package
(`gpx-editor-kit`), with proofs of its contracts:

- **Point reduction** (`Simplifiable.swift`).
  - Douglas-Peucker simplification over any point type with an `x`/`y` view: `Geometry`, `Simplification`, `Subsequences`.
  - Largest-Triangle-Three-Buckets (LTTB) downsampling of a height profile: `Downsampling`.
  - LTTB is modelled twice. `Lttb` is a functional reference. `LargestTriangleThreeBuckets` is the loop as written, with `SampleBuckets`, `NextBucketAverage` and `LargestTriangleInBucket` for its three loops, and it is proved to compute the reference.
- **Track-graph helpers** (`GPXKit+Extensions.swift`): `TrackGraphs`, `GradeColors`.
  - `segment(at:)`.
  - The greatest grade (`max(by:)`).
  - The smoothed and simplified `heightMap(gradeTolerance:rate:)`.
  - `gradeColor` as a classifier into ten bands. It is checked against an independent table of band boundaries.
- **Elevation merge** (`ElevationClient+Live.swift`): `ElevationMerge`.
  - The loop that lays the looked-up elevations over the coordinates sent.
  - A position-by-position description it is proved equal to.
- **Editor** (`EditorFeature.swift`, `EditorFeature+Extensions.swift`): `Editor`.
  - `State.init`, the reducer and `State.update()`, as pure functions from a state and an action to the next state and the effect requested.
  - The binding stage models TCA's `BindingReducer` and its two `onChange` handlers. Each handler runs only when its watched value changed, and the segmentation handler runs inside the selection handler.
  - The GPXKit library is reached only through a `Kit` of uninterpreted functions. A throwing initializer returns `None`.

Numbers are idealised as `real`. `Int(Double)` is modelled as truncation toward zero (`Editor.TruncateToInt`).

## Model

| member | source | states |
|---|---|---|
| Geometry.SquaredDistanceToSegment | gpx-editor-kit/Sources/EditorFeature/Simplifiable.swift:22-44 | The squared distance to the segment is never negative. For a degenerate segment (`p1 == p2`) it is the squared distance to `p1`. It is 0 at `p1`. |
| Geometry.OnSegmentHasZeroDistance | gpx-editor-kit/Sources/EditorFeature/Simplifiable.swift:28-43 | A point `p1 + s (p2 - p1)` with `0 <= s <= 1` has distance 0 to the segment: the projection parameter recovers `s` and the clamp leaves it alone. |
| Simplification.Farthest | gpx-editor-kit/Sources/EditorFeature/Simplifiable.swift:62-71 | The scan returns a bound at least the starting tolerance and no smaller than any interior point's squared distance. If the bound was exceeded, the index is an interior point that attains it, and every earlier interior point stays strictly below it (first maximum, strict `>`). Otherwise the start index comes back unchanged. |
| Simplification.Step | gpx-editor-kit/Sources/EditorFeature/Simplifiable.swift:59-81 | The indices one step keeps lie strictly between `first` and `last` and strictly increase (left part, pivot, right part). The recursion terminates on `last - first`. |
| Subsequences.JoinAroundPivot | gpx-editor-kit/Sources/EditorFeature/Simplifiable.swift:73-81 | Left indices below the pivot and right indices above it, each increasing, concatenate to an increasing run inside the outer bounds. |
| Simplification.KeptIndices | gpx-editor-kit/Sources/EditorFeature/Simplifiable.swift:59-94 | Fewer than two points keep nothing. Otherwise index 0 and the last index are kept, the indices strictly increase, and there are at most `count` of them. Every index strictly between two consecutive kept indices lies within squared distance `sqTolerance` of the chord joining them. |
| Simplification.Simplify | gpx-editor-kit/Sources/EditorFeature/Simplifiable.swift:48-94 | Fewer than two points give `[]`. Otherwise the result keeps both end points, its length lies between 2 and `count`, and it is a subsequence of the input. |
| Simplification.StepWithinChords | gpx-editor-kit/Sources/EditorFeature/Simplifiable.swift:59-81 | One step on `[first, last]`, framed by `first` and `last`, leaves every dropped index within squared distance `sqTolerance` of the chord between the kept indices around it. Without a pivot the scan bounds every interior point. With a pivot the two recursive steps are joined at it. |
| Simplification.DroppedPointsWithinTolerance | gpx-editor-kit/Sources/EditorFeature/Simplifiable.swift:48-94 | `simplify(tolerance:)` selects the kept indices, and every point it drops lies within squared distance `tolerance²` of the segment joining the two kept points around it. |
| Simplification.KeptEndpointsOnlyIff | gpx-editor-kit/Sources/EditorFeature/Simplifiable.swift:62-94 | On the plane coordinates, only the two ends are kept if and only if every interior point lies within `sqTolerance` of the chord. |
| Simplification.EndpointsOnlyIffWithinTolerance | gpx-editor-kit/Sources/EditorFeature/Simplifiable.swift:62-94 | The result is exactly `[first, last]` if and only if every interior point lies within squared distance `tolerance²` of the chord. |
| Simplification.CollinearWithinTolerance | gpx-editor-kit/Sources/EditorFeature/Simplifiable.swift:22-44 | Points lying in order on the chord between the two ends are within any squared tolerance `tolerance²` of it. |
| Simplification.CollinearReducesToEndpoints | gpx-editor-kit/Sources/EditorFeature/Simplifiable.swift:22-94 | Points lying in order on the chord reduce to `[first, last]` for every tolerance, 0 included. |
| Simplification.FarthestIsFirstMaximum | gpx-editor-kit/Sources/EditorFeature/Simplifiable.swift:62-71 | When a value above the starting bound bounds every remaining interior distance, is attained at `t`, and every scanned point before `t` stays strictly below it, the scan returns exactly that value and `t`: the strict `>` makes the first maximum win. |
| Simplification.StepSplitsAtPivot | gpx-editor-kit/Sources/EditorFeature/Simplifiable.swift:73-80 | When the bound is exceeded, the pivot is interior and the step keeps the left step's indices, the pivot, then the right step's. The guards `(index - first) > 1` and `(last - index) > 1` only skip steps that keep nothing. |
| Simplification.StepKeepsKept | gpx-editor-kit/Sources/EditorFeature/Simplifiable.swift:59-81 | On the kept points, the step between two of them finds the same first maximum, at the corresponding position, so it keeps every position between its ends. |
| Simplification.KeptIndicesOfKept | gpx-editor-kit/Sources/EditorFeature/Simplifiable.swift:59-94 | Selecting indices on the kept points again keeps all of them. |
| Simplification.SimplifyIdempotent | gpx-editor-kit/Sources/EditorFeature/Simplifiable.swift:48-94 | `simplify(tolerance:)` is idempotent: simplifying its result again with the same tolerance returns that result unchanged. |
| Downsampling.FloorDiv | gpx-editor-kit/Sources/EditorFeature/Simplifiable.swift:136-137 | The bucket-bound quotient is the floor, `q c <= x < (q + 1) c`, in the linear form the bucket proofs use. |
| Downsampling.BucketStart | gpx-editor-kit/Sources/EditorFeature/Simplifiable.swift:136-137 | Every bucket bound (`rangeOffs`, `rangeTo`) is at least index 1, and for buckets `0 ... threshold - 2` at most `count - 1`. |
| Downsampling.BucketStartIsFloor | gpx-editor-kit/Sources/EditorFeature/Simplifiable.swift:136-137 | Bucket `i` starts one past the floor of `i · (count - 2) / (threshold - 2)`: `(r - 1)(threshold - 2) <= i (count - 2) < r (threshold - 2)`. |
| Downsampling.TriangleArea | gpx-editor-kit/Sources/EditorFeature/Simplifiable.swift:147-151 | The area of the triangle scanned in the bucket loop is never negative. Its corners are point `a` (the previously kept point), `b` (the scanned point `self[rangeOffs]`) and `c` (the next bucket's average). |
| Downsampling.TriangleAreaAsCross | gpx-editor-kit/Sources/EditorFeature/Simplifiable.swift:147-151 | The source's expression equals half the absolute cross product of the edges `b - a` and `c - a`. It does not depend on the order of `b` and `c`, and it is zero when two corners coincide. |
| Downsampling.BucketGrows | gpx-editor-kit/Sources/EditorFeature/Simplifiable.swift:109-137 | Since `threshold < count`, the bucket width is at least 1, so every bucket holds at least one point. |
| Downsampling.BucketMonotone | gpx-editor-kit/Sources/EditorFeature/Simplifiable.swift:121-137 | Bucket starts grow by at least one per bucket. |
| Downsampling.BucketEnds | gpx-editor-kit/Sources/EditorFeature/Simplifiable.swift:136-137 | The first bucket starts at index 1. The last bucket ends at `count - 1`, which leaves the last point out of every bucket. |
| Downsampling.BucketBounds | gpx-editor-kit/Sources/EditorFeature/Simplifiable.swift:121-137 | Each bucket is non-empty and inside `[1, count - 1)`. The averaging range after it is non-empty, so the divisions at lines 132-133 are never by zero. |
| Downsampling.BucketStarts | gpx-editor-kit/Sources/EditorFeature/Simplifiable.swift:121-137 | The table of bucket starts: increasing, starting at 1, the last bucket ending at `count - 1`, each entry the floor bound of the source. |
| Downsampling.Best | gpx-editor-kit/Sources/EditorFeature/Simplifiable.swift:143-159 | The area scan returns a maximum of the scanned areas. A strict update means the first point reaching it wins. If nothing beats the starting bound, the previous point is kept. |
| Downsampling.LargestTriangle | gpx-editor-kit/Sources/EditorFeature/Simplifiable.swift:143-159 | Starting from the bound -1, the scan always picks a point of the bucket. Its area is maximal, and every earlier point's area is strictly smaller. |
| Downsampling.Pick | gpx-editor-kit/Sources/EditorFeature/Simplifiable.swift:136-159 | The point kept from bucket `i` lies in bucket `i`. |
| Downsampling.PickIsUnique | gpx-editor-kit/Sources/EditorFeature/Simplifiable.swift:143-159 | The pick satisfies the relational description (in the bucket, largest area, first such). It is the only point that does. |
| Downsampling.Picks | gpx-editor-kit/Sources/EditorFeature/Simplifiable.swift:117-163 | One pick per remaining bucket, each in its own bucket. |
| Downsampling.PicksInBuckets | gpx-editor-kit/Sources/EditorFeature/Simplifiable.swift:117-163 | The k-th pick lies between the k-th and the next bucket start. |
| Downsampling.FramePicks | gpx-editor-kit/Sources/EditorFeature/Simplifiable.swift:115-165 | The first index, one index per bucket, and the last index, in that order, strictly increase and stay within the profile. |
| Downsampling.KeptIndices | gpx-editor-kit/Sources/EditorFeature/Simplifiable.swift:115-165 | Exactly `threshold` indices are kept. The first is 0 and the last is `count - 1`. All are in range and they strictly increase. |
| Downsampling.KeptFromOwnBucket | gpx-editor-kit/Sources/EditorFeature/Simplifiable.swift:117-163 | Kept index `k` (between the ends) lies in bucket `k - 1`, from `⌊(k-1)·every⌋+1` up to `⌊k·every⌋+1`. |
| Downsampling.Lttb | gpx-editor-kit/Sources/EditorFeature/Simplifiable.swift:101-167 | An empty input, `threshold <= 2` or `threshold >= count` is returned unchanged. Otherwise the result has exactly `threshold` points, starts with `self[0]`, ends with `self[count-1]`, and is a subsequence of the input. |
| Downsampling.LargestTriangleThreeBuckets | gpx-editor-kit/Sources/EditorFeature/Simplifiable.swift:101-167 | The method as written computes the reference `Lttb`. |
| Downsampling.SampleBuckets | gpx-editor-kit/Sources/EditorFeature/Simplifiable.swift:111-163 | The bucket loop keeps the first point and then the reference picks, in order. |
| Downsampling.SampledIsLttb | gpx-editor-kit/Sources/EditorFeature/Simplifiable.swift:115-167 | The first point, the picks and the last point make up the reference result. |
| Downsampling.NextBucketAverage | gpx-editor-kit/Sources/EditorFeature/Simplifiable.swift:119-133 | The averaging loop computes the mean of the next bucket's range, clamped to the profile's end (line 123). All indices are in bounds and the range is non-empty. |
| Downsampling.LargestTriangleInBucket | gpx-editor-kit/Sources/EditorFeature/Simplifiable.swift:136-162 | The area loop yields the bucket's pick, although `maxAreaPoint` and `nextA` carry over from the previous bucket: the first point always overwrites them. |
| TrackGraphs.LastContaining | gpx-editor-kit/Sources/EditorFeature/GPXKit+Extensions.swift:19-23 | The index found is of a segment whose closed span holds `d`, and no later segment holds it. None exactly when no segment holds `d`. |
| TrackGraphs.SegmentAt | gpx-editor-kit/Sources/EditorFeature/GPXKit+Extensions.swift:19-23 | `segment(at: d)` has `start <= d <= end`, and no later segment contains `d`. It is nil if and only if no segment's closed span contains `d`. |
| TrackGraphs.MaxByGrade | gpx-editor-kit/Sources/EditorFeature/EditorFeature.swift:100-102 | `max(by:)` with a strict `<` returns a segment of greatest grade, the first one among equals. |
| TrackGraphs.SteepestSegment | gpx-editor-kit/Sources/EditorFeature/EditorFeature.swift:100-102 | None exactly for no segments. Otherwise the first segment of greatest grade. |
| TrackGraphs.MaxGrade | gpx-editor-kit/Sources/EditorFeature/EditorFeature.swift:35 | `max(by:)?.grade ?? .zero` is 0 without segments. Otherwise it is a grade of some segment and at least every segment's grade. |
| TrackGraphs.Smooth | gpx-editor-kit/Sources/EditorFeature/GPXKit+Extensions.swift:29-34 | The filtered profile has the same length and distances as the input, keeps element 0, and element `i > 0` has elevation `rate·raw[i] + (1-rate)·filtered[i-1]`. |
| TrackGraphs.HeightMap | gpx-editor-kit/Sources/EditorFeature/GPXKit+Extensions.swift:25-36 | The height map is the simplified filtered profile, with defaults `gradeTolerance = 1` and `rate = 0.5`. It is empty below two points. Otherwise it keeps the first point and the last distance, has 2 to `count` points, and is a subsequence of the filtered profile. |
| TrackGraphs.SmoothAtFullRateIsIdentity | gpx-editor-kit/Sources/EditorFeature/GPXKit+Extensions.swift:29-34 | With `rate = 1` the filter is the identity. |
| TrackGraphs.HeightMapAtFullRate | gpx-editor-kit/Sources/EditorFeature/GPXKit+Extensions.swift:25-36 | With `rate = 1` the height map is `simplify(tolerance: gradeTolerance)` of the raw profile. |
| TrackGraphs.ConvexCombinationBounded | gpx-editor-kit/Sources/EditorFeature/GPXKit+Extensions.swift:33 | One filter step with `0 <= rate <= 1` stays within bounds that hold both of its inputs. |
| TrackGraphs.SmoothStaysWithinBounds | gpx-editor-kit/Sources/EditorFeature/GPXKit+Extensions.swift:29-34 | For `0 <= rate <= 1`, every filtered elevation lies within any bounds that hold all raw elevations. |
| GradeColors.GradeColor | gpx-editor-kit/Sources/EditorFeature/GPXKit+Extensions.swift:42-57 | The `default` (clear) branch is never taken for a real grade. `hcDown` is returned exactly below -20, and `HC` exactly from 12 up. |
| GradeColors.BandIndexIsUniqueBand | gpx-editor-kit/Sources/EditorFeature/GPXKit+Extensions.swift:43-53 | The ten half-open ranges are pairwise disjoint and cover every real number. A grade is in band `k` exactly when its band index is `k`. |
| GradeColors.CountSplitsSorted | gpx-editor-kit/Sources/EditorFeature/GPXKit+Extensions.swift:43-53 | Over increasing boundaries, the boundaries a grade has passed are exactly the first `CountAtMost` of them. |
| GradeColors.GradeColorMatchesTable | gpx-editor-kit/Sources/EditorFeature/GPXKit+Extensions.swift:43-56 | The switch gives every grade the band its index in the boundary table selects. |
| GradeColors.GradeColorMonotone | gpx-editor-kit/Sources/EditorFeature/GPXKit+Extensions.swift:43-53 | The band is monotone non-decreasing in the grade. |
| ElevationMerge.Overlay | gpx-editor-kit/Sources/ElevationClient/ElevationClient+Live.swift:14-19 | The position-by-position description of the merge. It keeps the length, latitudes and longitudes, and the positions past the results. A response of zeros changes nothing. |
| ElevationMerge.MergeElevations | gpx-editor-kit/Sources/ElevationClient/ElevationClient+Live.swift:14-19 | Same length. Latitude and longitude are unchanged. A non-zero returned elevation overwrites the elevation at its index, and a zero keeps the original. Indices at or past `results.count` are unchanged. The loop equals `Overlay`. It requires only what keeps line 17 in bounds. |
| Editor.TruncateToInt | gpx-editor-kit/Sources/EditorFeature/EditorFeature+Extensions.swift:8 | `Int(threshold)` drops the fraction toward zero. |
| Editor.Init | gpx-editor-kit/Sources/EditorFeature/EditorFeature.swift:20-36 | `init` keeps the track and stores the five given settings: segment length, selection, threshold, maximum slope and overlay flag. It takes the track's graph and sets `maxGrade` consistent with it. |
| Editor.InitWithDefaults | gpx-editor-kit/Sources/EditorFeature/EditorFeature.swift:20-36 | With the defaults: segment length 100, threshold 30, maximum slope 0.01, no selection, the original overlay shown, `maxGrade` consistent. |
| Editor.WithGraph | gpx-editor-kit/Sources/EditorFeature/EditorFeature.swift:64-66 | Replacing the graph and recomputing `maxGrade` changes nothing else and restores consistency. |
| Editor.SnappedSelection | gpx-editor-kit/Sources/EditorFeature/EditorFeature.swift:72-77 | A selected distance snaps to the start of the last segment whose closed span holds it. It becomes nil if and only if no span holds it. |
| Editor.SegmentationChanged | gpx-editor-kit/Sources/EditorFeature/EditorFeature.swift:57-69 | A new segment length rebuilds the graph from the smoothed coordinates: a successful rebuild becomes the graph, and a throwing rebuild keeps the old graph. `maxGrade` is recomputed either way, and settings and selection are untouched. |
| Editor.ApplyBinding | gpx-editor-kit/Sources/EditorFeature/EditorFeature.swift:56 | A binding never changes the track, the graph or `maxGrade` by itself. |
| Editor.BindingStage | gpx-editor-kit/Sources/EditorFeature/EditorFeature.swift:56-80 | Non-binding actions pass through. A plain setting is stored and nothing else changes. A changed segment length rebuilds, falling back to the old graph. A changed non-nil selection snaps to the start of the last containing segment, or becomes nil. Unchanged values trigger nothing. |
| Editor.SteepestStart | gpx-editor-kit/Sources/EditorFeature/EditorFeature.swift:99-103 | The start of the first segment of maximal grade, nil exactly for no segments. |
| Editor.MainStage | gpx-editor-kit/Sources/EditorFeature/EditorFeature.swift:82-145 | No branch changes the track, and each keeps `maxGrade` consistent. A branch that returns an effect leaves the state unchanged. `.binding` returns `.none`. |
| Editor.Reduce | gpx-editor-kit/Sources/EditorFeature/EditorFeature.swift:55-146 | No action modifies the track. `maxGrade` consistency is preserved, and every graph-replacing action re-establishes it. A successful lookup result rebuilds the graph from the corrected coordinates and keeps every setting and the selection. A failed lookup result leaves the state unchanged and only logs. The elevation button only requests the lookup. Reset yields `init` with the default settings and no selection, keeping the segment length. Flatten, smooth and combine clear the selection and keep every setting. Combine keeps the old graph when the library throws. Flatten rebuilds from the track and takes the flattened segments exactly when `flatten` succeeds; otherwise the rebuilt graph is kept. Smooth rebuilds the graph from the track's elevation-smoothed coordinates, sampled with the truncated threshold. Select-max-grade changes only the selection, to the start of the first steepest segment. |
| Editor.RunPreservesInvariant | gpx-editor-kit/Sources/EditorFeature/EditorFeature.swift:55-146 | Over any sequence of actions the track never changes and `maxGrade` stays consistent with the graph. Every reachable state from `init` satisfies the invariant. |
| Editor.Update | gpx-editor-kit/Sources/EditorFeature/EditorFeature+Extensions.swift:5-12 | `update()` fails exactly when the library throws. On success the graph is the one built with `Int(threshold)` samples and the previous `maxGrade` as the grade delta, and `maxGrade` is recomputed from it. The track, the settings and the selection never change. |

## Left out

- GPXKit internals are left out. This covers `TrackGraph` construction, grade-segment building, `flatten(maxDelta:)`, `smoothedElevation(sampleCount:)` and `GPXTrack.graph`, whose source is outside this repository. They are uninterpreted fields of `Editor.Kit`. A track's own graph is a field of `Editor.Track`.
- GradeSegment: `start <= end` is assumed of every segment GPXKit builds. Swift's `start ... end` traps otherwise, and the library's code is not part of this model.
- Network and routing are left out: the HTTP call and route definition (`ElevationClient+Live.swift:8-13`, `OpenElevationAPI.swift`) and the dependency wiring. Only the merge loop is modelled.
- Async effects and logging in the reducer are left out. They are represented only by the `Editor.Effect` the reducer returns. The `updateResult` that the lookup sends back is an ordinary action.
- Editor.BindingAction: only the five fields the view binds are modelled. TCA bindings could write any state field, including `graph` or `maxGrade` directly, which would bypass the invariant.
- The SwiftUI and Charts views, the colour values, the document load and save code, the fixtures, the app entry point and the `Measurement` wrappers are left out. They are UI and plumbing with no logic of their own.
- Floating point is idealised as `real`. NaN, infinities and rounding are out of scope. The only way to reach `gradeColor`'s `default` branch is NaN, so the model proves that branch unreachable.
- `Coordinate`'s `Simplifiable` conformance (`Simplifiable.swift:14-17`) is not instantiated. No modelled operation simplifies coordinates; `Simplification.Simplify` is generic over the point's view.
- Downsampling.BucketStart: the bound `Int((Double(i) * every).rounded(.down) + 1)` is taken as the exact integer floor of `i·(count-2)/(threshold-2)`, plus 1. Double rounding of `every` is not modelled.
- Downsampling.LargestTriangleThreeBuckets computes the bucket bounds once, before the loop (`BucketStarts`). The source recomputes the same values from `every` in each iteration.
- ElevationMerge.MergeElevations requires `FitsRequest`: every response entry past the request must carry elevation 0. Under the source, the loop's `continue` skips exactly those entries, so it does not trap. This precondition is weaker than `results.count <= coordinates.count`, which implies it.
