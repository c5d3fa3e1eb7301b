/** The editor feature (EditorFeature.swift, EditorFeature+Extensions.swift):
    the editor's state, its initial value, and the reducer as a pure
    transition from a state and an action to the next state and the effect
    it asks for. The track-graph library the editor builds on is reached
    only through a `Kit` of opaque functions. */
module Editor {
  import opened Wrappers
  import opened Geometry
  import opened TrackGraphs

  /** A GPX track: its title, its coordinates in order, and the graph the
      library built for it when it was loaded. */
  datatype Track = Track(title: string, coordinates: seq<Coordinate>, graph: TrackGraph)

  /** The library calls the editor makes, whose behaviour is not modelled.
      A throwing initializer gives `None` when it throws.
        - `graphOf`: `TrackGraph(coords:)`, which cannot fail;
        - `segmented`: `TrackGraph(coords:elevationSmoothing: .segmentation(length))`;
        - `combined`: `TrackGraph(coords:elevationSmoothing: .combined(smoothingSampleCount:maxGradeDelta:))`;
        - `sampled`: `TrackGraph(coords:smoothingSampleCount:allowedGradeDelta:)`;
        - `smoothedElevation`: `coordinates.smoothedElevation(sampleCount:)`;
        - `flatten`: `gradeSegments.flatten(maxDelta:)`. */
  datatype Kit = Kit(
    graphOf: seq<Coordinate> -> TrackGraph,
    segmented: (seq<Coordinate>, real) -> Option<TrackGraph>,
    combined: (seq<Coordinate>, int, real) -> Option<TrackGraph>,
    sampled: (seq<Coordinate>, int, real) -> Option<TrackGraph>,
    smoothedElevation: (seq<Coordinate>, int) -> seq<Coordinate>,
    flatten: (seq<Segment>, real) -> Option<seq<Segment>>)

  /** The editor's state. A grade segment is identified by its `start`, so
      the selection is a distance. */
  datatype EditorState = EditorState(
    track: Track,
    segmentationLength: real,
    selectedGradeSegment: Option<real>,
    threshold: real,
    maxSlope: real,
    graph: TrackGraph,
    showsOriginal: bool,
    maxGrade: real)

  /** The changes the view's controls bind to: the segment-length, threshold
      and max-slope sliders, the overlay toggle, and the selection shared
      by the chart and the table. */
  datatype BindingAction =
    | SetSegmentationLength(length: real)
    | SetSelectedGradeSegment(selection: Option<real>)
    | SetThreshold(threshold: real)
    | SetMaxSlope(maxSlope: real)
    | SetShowsOriginal(showsOriginal: bool)

  datatype Action =
    | CorrectElevationButtonTapped
    | UpdateResult(result: Result<seq<Coordinate>, string>)
    | Binding(binding: BindingAction)
    | SelectMaxGradeTapped
    | ResetButtonTapped
    | FlattenButtonTapped
    | SmoothButtonTapped
    | CombineButtonTapped

  /** What the reducer hands back to run outside it: nothing, the elevation
      lookup for these coordinates (answered by an `UpdateResult`), or
      logging the lookup's error. */
  datatype Effect = NoEffect | FetchElevations(coordinates: seq<Coordinate>) | LogFetchError(error: string)

  /** The default settings of `State.init`. */
  const DefaultSegmentationLength: real := 100.0
  const DefaultThreshold: real := 30.0
  const DefaultMaxSlope: real := 0.01

  /** The editor's invariant: `maxGrade` is the greatest grade of the
      graph's segments, 0 when there are none. */
  ghost predicate MaxGradeConsistent(s: EditorState) {
    s.maxGrade == MaxGrade(s.graph.gradeSegments)
  }

  /** `Int(_:)` on a `Double`: the fractional part is dropped, rounding
      toward zero. */
  function TruncateToInt(x: real): (r: int)
    ensures 0.0 <= x ==> r as real <= x < r as real + 1.0
    ensures x <= 0.0 ==> r as real - 1.0 < x <= r as real
  {
    if x >= 0.0 then x.Floor else -((-x).Floor)
  }

  /** `State.init`: the track's own graph, the given settings, and the
      greatest grade of that graph. */
  function Init(track: Track, segmentationLength: real, selectedGradeSegment: Option<real>,
                threshold: real, maxSlope: real, showsOriginal: bool): (r: EditorState)
    ensures r.track == track && r.graph == track.graph
    ensures r.segmentationLength == segmentationLength && r.selectedGradeSegment == selectedGradeSegment
    ensures r.threshold == threshold && r.maxSlope == maxSlope && r.showsOriginal == showsOriginal
    ensures MaxGradeConsistent(r)
  {
    EditorState(track, segmentationLength, selectedGradeSegment, threshold, maxSlope,
                track.graph, showsOriginal, MaxGrade(track.graph.gradeSegments))
  }

  /** `State(track:)` with every default. */
  function InitWithDefaults(track: Track): (r: EditorState)
    ensures r.track == track && r.graph == track.graph
    ensures r.segmentationLength == 100.0 && r.threshold == 30.0 && r.maxSlope == 0.01
    ensures r.selectedGradeSegment.None? && r.showsOriginal
    ensures MaxGradeConsistent(r)
  {
    Init(track, DefaultSegmentationLength, None, DefaultThreshold, DefaultMaxSlope, true)
  }

  /** The state with `graph` replaced and `maxGrade` recomputed from it, as
      every graph-replacing branch of the reducer ends. */
  function WithGraph(s: EditorState, graph: TrackGraph): (r: EditorState)
    ensures MaxGradeConsistent(r)
    ensures r.graph == graph
    ensures r.(graph := s.graph, maxGrade := s.maxGrade) == s
  {
    s.(graph := graph, maxGrade := MaxGrade(graph.gradeSegments))
  }

  /** The user settings and the track: everything but the graph, its
      greatest grade and the selection. */
  ghost predicate SameSettings(s: EditorState, r: EditorState) {
    && r.track == s.track
    && r.segmentationLength == s.segmentationLength
    && r.threshold == s.threshold
    && r.maxSlope == s.maxSlope
    && r.showsOriginal == s.showsOriginal
  }

  /** The selection that the change handler snaps a selected distance `d`
      to: the start of the last segment of `graph` whose span holds `d`. */
  function SnappedSelection(graph: TrackGraph, d: real): (r: Option<real>)
    ensures r.None? <==> forall j :: 0 <= j < |graph.gradeSegments| ==> !Contains(graph.gradeSegments[j], d)
    ensures r.Some? ==>
              exists k :: 0 <= k < |graph.gradeSegments|
                && graph.gradeSegments[k].start == r.value
                && Contains(graph.gradeSegments[k], d)
                && forall j :: k < j < |graph.gradeSegments| ==> !Contains(graph.gradeSegments[j], d)
  {
    match SegmentAt(graph, d)
    case Some(seg) => Some(seg.start)
    case None => None
  }

  /** The change handler on `segmentationLength`: rebuild the graph from
      the track's coordinates, elevation-smoothed with `Int(threshold)`
      samples, segmented with the new length; a throwing rebuild keeps the
      previous graph. The greatest grade is recomputed either way. */
  function SegmentationChanged(kit: Kit, s: EditorState): (r: EditorState)
    ensures SameSettings(s, r) && r.selectedGradeSegment == s.selectedGradeSegment
    ensures MaxGradeConsistent(r)
    ensures var built := kit.segmented(kit.smoothedElevation(s.track.coordinates, TruncateToInt(s.threshold)), s.segmentationLength);
            && (built.Some? ==> r.graph == built.value)
            && (built.None? ==> r.graph == s.graph)
  {
    var coordinates := kit.smoothedElevation(s.track.coordinates, TruncateToInt(s.threshold));
    match kit.segmented(coordinates, s.segmentationLength)
    case Some(graph) => WithGraph(s, graph)
    case None => WithGraph(s, s.graph)
  }

  /** The binding reducer: the bound field takes the new value. */
  function ApplyBinding(s: EditorState, b: BindingAction): (r: EditorState)
    ensures r.track == s.track && r.graph == s.graph && r.maxGrade == s.maxGrade
  {
    match b
    case SetSegmentationLength(length) => s.(segmentationLength := length)
    case SetSelectedGradeSegment(selection) => s.(selectedGradeSegment := selection)
    case SetThreshold(threshold) => s.(threshold := threshold)
    case SetMaxSlope(maxSlope) => s.(maxSlope := maxSlope)
    case SetShowsOriginal(showsOriginal) => s.(showsOriginal := showsOriginal)
  }

  /** The binding stage of the reducer body: the binding reducer and its two
      change handlers. Each handler runs only when the value it watches
      differs before and after the stage it wraps, the segmentation handler
      first; other actions pass through unchanged. */
  function BindingStage(kit: Kit, s: EditorState, a: Action): (r: EditorState)
    ensures !a.Binding? ==> r == s
    ensures r.track == s.track
    ensures MaxGradeConsistent(s) ==> MaxGradeConsistent(r)
    // the plain settings are stored and nothing else changes
    ensures a.Binding? && a.binding.SetThreshold? ==> r == s.(threshold := a.binding.threshold)
    ensures a.Binding? && a.binding.SetMaxSlope? ==> r == s.(maxSlope := a.binding.maxSlope)
    ensures a.Binding? && a.binding.SetShowsOriginal? ==> r == s.(showsOriginal := a.binding.showsOriginal)
    // a new segment length rebuilds the graph, keeping the old one if the library throws
    ensures a.Binding? && a.binding.SetSegmentationLength? ==>
              && r.segmentationLength == a.binding.length
              && r.selectedGradeSegment == s.selectedGradeSegment
              && (a.binding.length == s.segmentationLength ==> r == s)
              && (a.binding.length != s.segmentationLength ==>
                    var built := kit.segmented(kit.smoothedElevation(s.track.coordinates, TruncateToInt(s.threshold)), a.binding.length);
                    && SameSettings(s.(segmentationLength := a.binding.length), r)
                    && MaxGradeConsistent(r)
                    && (built.Some? ==> r.graph == built.value)
                    && (built.None? ==> r.graph == s.graph))
    // a new, non-empty selection snaps to the start of the segment holding it
    ensures a.Binding? && a.binding.SetSelectedGradeSegment? ==>
              && r == s.(selectedGradeSegment := r.selectedGradeSegment)
              && (a.binding.selection == s.selectedGradeSegment || a.binding.selection.None? ==>
                    r.selectedGradeSegment == a.binding.selection)
              && (a.binding.selection != s.selectedGradeSegment && a.binding.selection.Some? ==>
                    r.selectedGradeSegment == SnappedSelection(s.graph, a.binding.selection.value))
  {
    if !a.Binding? then s
    else
      var bound := ApplyBinding(s, a.binding);
      var rebuilt := if bound.segmentationLength != s.segmentationLength then SegmentationChanged(kit, bound) else bound;
      if rebuilt.selectedGradeSegment != s.selectedGradeSegment && rebuilt.selectedGradeSegment.Some? then
        rebuilt.(selectedGradeSegment := SnappedSelection(rebuilt.graph, rebuilt.selectedGradeSegment.value))
      else rebuilt
  }

  /** The start of the first segment of greatest grade, none without
      segments. */
  function SteepestStart(graph: TrackGraph): (r: Option<real>)
    ensures r.None? <==> |graph.gradeSegments| == 0
    ensures r.Some? ==>
              exists k :: 0 <= k < |graph.gradeSegments|
                && graph.gradeSegments[k].start == r.value
                && graph.gradeSegments[k].grade == MaxGrade(graph.gradeSegments)
                && forall j :: 0 <= j < k ==> graph.gradeSegments[j].grade < graph.gradeSegments[k].grade
  {
    match SteepestSegment(graph.gradeSegments)
    case Some(k) => Some(graph.gradeSegments[k].start)
    case None => None
  }

  /** The main reducer, after the binding stage. */
  function MainStage(kit: Kit, s: EditorState, a: Action): (r: (EditorState, Effect))
    ensures r.0.track == s.track
    ensures MaxGradeConsistent(s) ==> MaxGradeConsistent(r.0)
    ensures r.1 != NoEffect ==> r.0 == s
    ensures a.Binding? ==> r == (s, NoEffect)
  {
    var coordinates := s.track.coordinates;
    match a
    case CorrectElevationButtonTapped => (s, FetchElevations(coordinates))
    case UpdateResult(Success(corrected)) => (WithGraph(s, kit.graphOf(corrected)), NoEffect)
    case UpdateResult(Failure(error)) => (s, LogFetchError(error))
    case SelectMaxGradeTapped => (s.(selectedGradeSegment := SteepestStart(s.graph)), NoEffect)
    case ResetButtonTapped =>
      (WithGraph(s.(maxSlope := DefaultMaxSlope, threshold := DefaultThreshold, showsOriginal := true,
                   selectedGradeSegment := None), s.track.graph), NoEffect)
    case FlattenButtonTapped =>
      var graph := kit.graphOf(coordinates);
      var flattened := match kit.flatten(graph.gradeSegments, s.maxSlope)
                       case Some(segments) => graph.(gradeSegments := segments)
                       case None => graph;
      (WithGraph(s.(selectedGradeSegment := None), flattened), NoEffect)
    case SmoothButtonTapped =>
      var smoothed := kit.smoothedElevation(coordinates, TruncateToInt(s.threshold));
      (WithGraph(s.(selectedGradeSegment := None), kit.graphOf(smoothed)), NoEffect)
    case CombineButtonTapped =>
      var graph := match kit.combined(coordinates, TruncateToInt(s.threshold), s.maxSlope)
                   case Some(g) => g
                   case None => s.graph;
      (WithGraph(s.(selectedGradeSegment := None), graph), NoEffect)
    case Binding(_) => (s, NoEffect)
  }

  /** One step of the editor: the binding stage, then the main reducer. */
  function Reduce(kit: Kit, s: EditorState, a: Action): (r: (EditorState, Effect))
    // no action changes the track
    ensures r.0.track == s.track
    // the greatest grade stays the greatest grade of the graph
    ensures MaxGradeConsistent(s) ==> MaxGradeConsistent(r.0)
    // after a graph-replacing action it holds whatever the state before
    ensures a.UpdateResult? && a.result.Success? ==> MaxGradeConsistent(r.0)
    // a successful lookup rebuilds the graph from the corrected coordinates and keeps the rest
    ensures a.UpdateResult? && a.result.Success? ==>
              && r.0.graph == kit.graphOf(a.result.value)
              && SameSettings(s, r.0)
              && r.0.selectedGradeSegment == s.selectedGradeSegment
    ensures a in {ResetButtonTapped, FlattenButtonTapped, SmoothButtonTapped, CombineButtonTapped} ==> MaxGradeConsistent(r.0)
    // a failed lookup only logs; asking for a lookup only fetches
    ensures a.UpdateResult? && a.result.Failure? ==> r.0 == s && r.1 == LogFetchError(a.result.error)
    ensures a == CorrectElevationButtonTapped ==> r.0 == s && r.1 == FetchElevations(s.track.coordinates)
    ensures !(a.CorrectElevationButtonTapped? || (a.UpdateResult? && a.result.Failure?)) ==> r.1 == NoEffect
    // reset restores the initial state of the track, keeping the segment length
    ensures a == ResetButtonTapped ==>
              r.0 == Init(s.track, s.segmentationLength, None, DefaultThreshold, DefaultMaxSlope, true)
    // the rebuilding buttons clear the selection and keep every setting
    ensures a in {FlattenButtonTapped, SmoothButtonTapped, CombineButtonTapped} ==>
              r.0.selectedGradeSegment.None? && SameSettings(s, r.0)
    // combine keeps the previous graph when the library throws
    ensures a == CombineButtonTapped ==>
              var built := kit.combined(s.track.coordinates, TruncateToInt(s.threshold), s.maxSlope);
              (built.Some? ==> r.0.graph == built.value) && (built.None? ==> r.0.graph == s.graph)
    // flatten always rebuilds from the track, then takes the flattened segments when flattening succeeds
    ensures a == FlattenButtonTapped ==>
              var graph := kit.graphOf(s.track.coordinates);
              var flattened := kit.flatten(graph.gradeSegments, s.maxSlope);
              && (flattened.Some? ==> r.0.graph == graph.(gradeSegments := flattened.value))
              && (flattened.None? ==> r.0.graph == graph)
    // smooth rebuilds from the track's elevation-smoothed coordinates
    ensures a == SmoothButtonTapped ==>
              r.0.graph == kit.graphOf(kit.smoothedElevation(s.track.coordinates, TruncateToInt(s.threshold)))
    // bindings act only through the binding stage
    ensures a.Binding? ==> r == (BindingStage(kit, s, a), NoEffect)
    // selecting the maximum grade moves only the selection
    ensures a == SelectMaxGradeTapped ==>
              && r.0 == s.(selectedGradeSegment := r.0.selectedGradeSegment)
              && r.0.selectedGradeSegment == SteepestStart(s.graph)
  {
    MainStage(kit, BindingStage(kit, s, a), a)
  }

  /** `State.update()`: rebuild the graph from the track's coordinates with
      `Int(threshold)` smoothing samples, passing the current `maxGrade` as
      the allowed grade delta, then recompute `maxGrade`. `None` when the
      library throws, in which case the caller's state is untouched. */
  function Update(kit: Kit, s: EditorState): (r: Option<EditorState>)
    ensures r.None? <==> kit.sampled(s.track.coordinates, TruncateToInt(s.threshold), s.maxGrade).None?
    ensures r.Some? ==>
              && r.value.graph == kit.sampled(s.track.coordinates, TruncateToInt(s.threshold), s.maxGrade).value
              && MaxGradeConsistent(r.value)
              && SameSettings(s, r.value)
              && r.value.selectedGradeSegment == s.selectedGradeSegment
  {
    match kit.sampled(s.track.coordinates, TruncateToInt(s.threshold), s.maxGrade)
    case Some(graph) => Some(WithGraph(s, graph))
    case None => None
  }

  /** The state after a run of actions, and the effects asked for on the way. */
  function Run(kit: Kit, s: EditorState, actions: seq<Action>): (EditorState, seq<Effect>)
    decreases |actions|
  {
    if |actions| == 0 then (s, [])
    else
      var step := Reduce(kit, s, actions[0]);
      var rest := Run(kit, step.0, actions[1..]);
      (rest.0, [step.1] + rest.1)
  }

  /** Over any run of actions the track never changes and the greatest
      grade stays consistent with the graph; so from `init` every reachable
      state satisfies the invariant. */
  lemma {:induction false} RunPreservesInvariant(kit: Kit, s: EditorState, actions: seq<Action>)
    requires MaxGradeConsistent(s)
    ensures Run(kit, s, actions).0.track == s.track
    ensures MaxGradeConsistent(Run(kit, s, actions).0)
    ensures |Run(kit, s, actions).1| == |actions|
    decreases |actions|
  {
    if |actions| > 0 {
      RunPreservesInvariant(kit, Reduce(kit, s, actions[0]).0, actions[1..]);
    }
  }
}
