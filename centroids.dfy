/**
 * `mergeCentroids` of the commuter-clustering loader: each cluster boundary
 * gets the coordinates of the centroid feature with the same cluster id,
 * ids compared as strings.
 */
module ClusterCentroids {
  import opened Wrappers
  import opened JsValues

  /** A `[lon, lat]` pair. */
  datatype Coords = Coords(lon: real, lat: real)

  /** A centroid feature: its properties and its point geometry. */
  datatype Centroid = Centroid(properties: Row, coordinates: Coords)

  /** A boundary feature's geometry, carried over untouched. */
  datatype Geometry = Geometry(kind: string, rings: seq<seq<Coords>>)

  /** A boundary feature: geometry, properties and the `properties.centroid` the merge sets. */
  datatype Boundary = Boundary(geometry: Geometry, properties: Row, centroid: Option<Coords>)

  /** `String(feature.properties.cluster_id)`. */
  function KeyOf(properties: Row): string {
    ToStr(Get(properties, "cluster_id"))
  }

  /** The coordinates of the last centroid whose key is `key`. */
  function LastCoords(centroids: seq<Centroid>, key: string): Option<Coords> {
    if centroids == [] then None
    else if KeyOf(centroids[|centroids| - 1].properties) == key then Some(centroids[|centroids| - 1].coordinates)
    else LastCoords(centroids[..|centroids| - 1], key)
  }

  /** A key has no coordinates exactly when no centroid carries it. */
  lemma {:induction false} LastCoordsNone(centroids: seq<Centroid>, key: string)
    ensures LastCoords(centroids, key).None? <==>
      forall i :: 0 <= i < |centroids| ==> KeyOf(centroids[i].properties) != key
    decreases |centroids|
  {
    if centroids != [] {
      var n := |centroids|;
      var init := centroids[..n - 1];
      LastCoordsNone(init, key);
      assert forall i :: 0 <= i < n - 1 ==> init[i] == centroids[i];
    }
  }

  /** The last centroid carrying a key gives its coordinates: a later centroid with the same id wins. */
  lemma {:induction false} LastCoordsAt(centroids: seq<Centroid>, key: string, i: nat)
    requires i < |centroids| && KeyOf(centroids[i].properties) == key
    requires forall j :: i < j < |centroids| ==> KeyOf(centroids[j].properties) != key
    ensures LastCoords(centroids, key) == Some(centroids[i].coordinates)
    decreases |centroids|
  {
    var n := |centroids|;
    if i < n - 1 {
      var init := centroids[..n - 1];
      assert init[i] == centroids[i];
      assert forall j :: i < j < n - 1 ==> init[j] == centroids[j];
      LastCoordsAt(init, key, i);
    }
  }

  /** The `centroids.forEach(... centroidMap.set(clusterId, coords))` loop. */
  method BuildCentroidMap(centroids: seq<Centroid>) returns (centroidMap: map<string, Coords>)
    ensures forall key :: key in centroidMap <==> LastCoords(centroids, key).Some?
    ensures forall key :: key in centroidMap ==> centroidMap[key] == LastCoords(centroids, key).value
  {
    centroidMap := map[];
    var i := 0;
    while i < |centroids|
      invariant i <= |centroids|
      invariant forall key :: key in centroidMap <==> LastCoords(centroids[..i], key).Some?
      invariant forall key :: key in centroidMap ==> centroidMap[key] == LastCoords(centroids[..i], key).value
    {
      assert centroids[..i + 1][..i] == centroids[..i];
      centroidMap := centroidMap[KeyOf(centroids[i].properties) := centroids[i].coordinates];
      i := i + 1;
    }
    assert centroids[..i] == centroids;
  }

  /** `{...boundary, properties: {...boundary.properties, centroid}}`. */
  function WithCentroid(boundary: Boundary, centroid: Option<Coords>): Boundary {
    boundary.(centroid := centroid)
  }

  /**
   * `mergeCentroids`: one output per boundary, in order, each the boundary
   * with the coordinates of the last centroid of the same id, or none.
   */
  method MergeCentroids(boundaries: seq<Boundary>, centroids: seq<Centroid>) returns (merged: seq<Boundary>)
    ensures |merged| == |boundaries|
    ensures forall i :: 0 <= i < |boundaries| ==>
      merged[i].geometry == boundaries[i].geometry && merged[i].properties == boundaries[i].properties
      && merged[i].centroid == LastCoords(centroids, KeyOf(boundaries[i].properties))
  {
    var centroidMap := BuildCentroidMap(centroids);
    merged := seq(|boundaries|, i requires 0 <= i < |boundaries| =>
      var key := KeyOf(boundaries[i].properties);
      WithCentroid(boundaries[i], if key in centroidMap then Some(centroidMap[key]) else None));
  }
}
