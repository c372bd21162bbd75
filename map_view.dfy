/** The coordinate swap of `addAlertsToMap` in app.js: GeoJSON leaves are
    `[lng, lat, ...]`, while the map takes `[lat, lng]` pairs. */
module MapView {
  import opened JsValues
  import opened Coords
  import opened Region

  /** `s[i]` read by array destructuring: None is `undefined`. */
  function Slot(s: seq<JVal>, i: nat): Option<JVal> {
    if i < |s| then Some(s[i]) else None
  }

  /** A map position `[lat, lng]`; a missing component is `undefined`. */
  datatype LatLng = LatLng(lat: Option<JVal>, lng: Option<JVal>)

  /** Numeric conversion of a possibly `undefined` component (NaN is None). */
  function Coerce(o: Option<JVal>): Option<real> {
    if o.Some? then ToNumber(o.value) else None
  }

  /** The inclusive box test, read on a map position. */
  predicate LatLngInBox(b: Box, p: LatLng) {
    InRange(Coerce(p.lat), b.minLat, b.maxLat) && InRange(Coerce(p.lng), b.minLng, b.maxLng)
  }

  /** `([lng, lat]) => [lat, lng]` on one leaf: the leaf's first element becomes
      the longitude and its second the latitude, so the map position passes
      the box test exactly when the leaf does. */
  function Swap(leaf: seq<JVal>): (p: LatLng)
    ensures p.lng == Slot(leaf, 0) && p.lat == Slot(leaf, 1)
    ensures forall b: Box :: LatLngInBox(b, p) <==> PointInBox(b, leaf)
  {
    LatLng(Slot(leaf, 1), Slot(leaf, 0))
  }

  /** `flattenCoords(coords).map(([lng, lat]) => [lat, lng])` for a shape: it
      throws exactly when a null is reachable, and otherwise lists one swapped
      position per leaf, in the walk's order. */
  function ShapeLatLngs(coords: JVal): (r: Completion<seq<LatLng>>)
    ensures r.Throw? <==> ReachesNull(coords)
    ensures r.Normal? ==> Flatten(coords).Normal? && |r.value| == |Flatten(coords).value|
    ensures r.Normal? ==> forall k | 0 <= k < |r.value| :: r.value[k] == Swap(Flatten(coords).value[k].items)
  {
    FlattenThrowsIffNull(coords);
    match Flatten(coords)
    case Throw => Throw
    case Normal(flat) => Normal(seq(|flat|, k requires 0 <= k < |flat| => Swap(flat[k].items)))
  }

  /** A point geometry's marker sits where the region test looked: the marker
      position is in the box exactly when the geometry is in the region. */
  lemma PointMarkerInBox(d: string, coords: JVal)
    requires IsLeaf(coords)
    ensures GeometryWithinIndia(Present(d, coords)) <==> LatLngInBox(IndiaBox, Swap(coords.items))
  {
  }

  /** A shape geometry is in the region exactly when it draws without throwing
      and at least one of its polygon vertices lies in the box. */
  lemma ShapeVerticesInBox(d: string, coords: JVal)
    requires !coords.Null? && !IsLeaf(coords)
    ensures GeometryWithinIndia(Present(d, coords)) <==>
      ShapeLatLngs(coords).Normal? &&
      exists k | 0 <= k < |ShapeLatLngs(coords).value| :: LatLngInBox(IndiaBox, ShapeLatLngs(coords).value[k])
  {
    var r := ShapeLatLngs(coords);
    if r.Normal? {
      var flat := Flatten(coords).value;
      if GeometryWithinIndia(Present(d, coords)) {
        var i :| 0 <= i < |flat| && LeafInBox(IndiaBox, flat[i]);
        assert LatLngInBox(IndiaBox, r.value[i]);
      }
      if exists k | 0 <= k < |r.value| :: LatLngInBox(IndiaBox, r.value[k]) {
        var k :| 0 <= k < |r.value| && LatLngInBox(IndiaBox, r.value[k]);
        assert LeafInBox(IndiaBox, flat[k]);
      }
    }
  }
}
