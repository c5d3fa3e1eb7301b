/** The merge step of the live elevation client (ElevationClient+Live.swift):
    the elevations returned by the lookup service are laid over the
    coordinates that were sent, position by position. A returned elevation
    of zero means the service had none, and the original is kept. */
module ElevationMerge {
  import opened Geometry

  /** One entry of the service's response. */
  datatype CoordinateResponse = CoordinateResponse(latitude: real, longitude: real, elevation: real)

  /** The loop only indexes the copy for a non-zero elevation, so a response
      longer than the request traps exactly when one of its extra entries
      carries an elevation. */
  predicate FitsRequest(coordinates: seq<Coordinate>, results: seq<CoordinateResponse>) {
    forall idx :: |coordinates| <= idx < |results| ==> results[idx].elevation == 0.0
  }

  /** The elevation of `original` after the response entry `response` has
      been applied to it. */
  function Corrected(original: Coordinate, response: CoordinateResponse): Coordinate {
    if response.elevation != 0.0 then original.(elevation := response.elevation) else original
  }

  /** The merged coordinates, described position by position. */
  function Overlay(coordinates: seq<Coordinate>, results: seq<CoordinateResponse>): (r: seq<Coordinate>)
    ensures |r| == |coordinates|
    ensures forall i :: 0 <= i < |coordinates| ==>
              && r[i].latitude == coordinates[i].latitude
              && r[i].longitude == coordinates[i].longitude
    ensures forall i :: |results| <= i < |coordinates| ==> r[i] == coordinates[i]
    ensures (forall idx :: 0 <= idx < |results| ==> results[idx].elevation == 0.0) ==> r == coordinates
  {
    seq(|coordinates|, i requires 0 <= i < |coordinates| =>
      if i < |results| then Corrected(coordinates[i], results[i]) else coordinates[i])
  }

  /** The loop of the client: copy the coordinates, then for each response
      entry with a non-zero elevation overwrite the elevation at its index. */
  method MergeElevations(coordinates: seq<Coordinate>, results: seq<CoordinateResponse>) returns (copy: seq<Coordinate>)
    requires FitsRequest(coordinates, results)
    ensures |copy| == |coordinates|
    ensures forall i :: 0 <= i < |coordinates| ==>
              && copy[i].latitude == coordinates[i].latitude
              && copy[i].longitude == coordinates[i].longitude
    ensures forall i :: 0 <= i < |results| && 0 <= i < |coordinates| ==>
              copy[i].elevation == (if results[i].elevation != 0.0 then results[i].elevation else coordinates[i].elevation)
    ensures forall i :: |results| <= i < |coordinates| ==> copy[i] == coordinates[i]
    ensures copy == Overlay(coordinates, results)
  {
    copy := coordinates;
    for idx := 0 to |results|
      invariant |copy| == |coordinates|
      invariant forall i :: 0 <= i < |coordinates| ==>
                  copy[i] == if i < idx && i < |results| then Corrected(coordinates[i], results[i]) else coordinates[i]
    {
      if results[idx].elevation == 0.0 {
        continue;
      }
      copy := copy[idx := copy[idx].(elevation := results[idx].elevation)];
    }
  }
}
