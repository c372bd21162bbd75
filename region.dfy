/** `geometryWithinIndia` of app.js: whether one geometry entry of an event
    touches the fixed India bounding box `INDIA_BBOX`. */
module Region {
  import opened JsValues
  import opened Coords

  /** A latitude/longitude box; both ends of each range belong to it. */
  datatype Box = Box(minLat: real, maxLat: real, minLng: real, maxLng: real)

  /** `INDIA_BBOX`. */
  const IndiaBox: Box := Box(6.0, 37.5, 68.0, 97.5)

  /** `lo <= x && x <= hi` on a converted operand; NaN (None) fails both. */
  predicate InRange(x: Option<real>, lo: real, hi: real) {
    x.Some? && lo <= x.value <= hi
  }

  /** `const [lng, lat] = coords` followed by the inclusive box test. */
  predicate PointInBox(b: Box, coords: seq<JVal>) {
    InRange(Component(coords, 1), b.minLat, b.maxLat) &&
    InRange(Component(coords, 0), b.minLng, b.maxLng)
  }

  /** The box test applied to an array value (a leaf of the walk). */
  predicate LeafInBox(b: Box, v: JVal) {
    v.Arr? && PointInBox(b, v.items)
  }

  /** One entry of an event's `geometry` list.
      - Absent: a falsy entry (null, false, 0, "").
      - Present: any truthy entry; `coordinates` is its `coordinates` field,
        Null when the field is missing or null (also for a truthy
        non-object, whose field reads as undefined). */
  datatype Geometry = Absent | Present(date: string, coordinates: JVal)

  /** `geometryWithinIndia(geometry)`, with its `catch` turning every throw
      into `false`. It can only hold for a present entry none of whose
      reachable nodes is null. */
  function GeometryWithinIndia(g: Geometry): (r: bool)
    ensures r ==> g.Present? && !ReachesNull(g.coordinates)
  {
    match g
    case Absent => false
    case Present(_, coords) =>
      if coords.Null? then
        false  // `coords[0]` throws
      else if IsLeaf(coords) then
        LeafInBox(IndiaBox, coords)
      else
        FlattenThrowsIffNull(coords);
        match Flatten(coords)
        case Throw => false
        case Normal(flat) => exists i | 0 <= i < |flat| :: LeafInBox(IndiaBox, flat[i])
  }

  /** The whole behaviour in terms of the nesting itself: a present entry is in
      the region iff no null is reachable in its coordinates and at least one
      of their leaves lies in the box. */
  lemma WithinIndiaIff(g: Geometry)
    ensures GeometryWithinIndia(g) <==>
      g.Present? && !ReachesNull(g.coordinates) &&
      exists w :: HasLeaf(g.coordinates, w) && LeafInBox(IndiaBox, w)
  {
    if g.Present? {
      var c := g.coordinates;
      if !c.Null? && !IsLeaf(c) {
        FlattenThrowsIffNull(c);
        if Flatten(c).Normal? {
          var flat := Flatten(c).value;
          if exists w :: HasLeaf(c, w) && LeafInBox(IndiaBox, w) {
            var w :| HasLeaf(c, w) && LeafInBox(IndiaBox, w);
            FlattenMembers(c, w);
            var i :| 0 <= i < |flat| && flat[i] == w;
          }
          if exists i | 0 <= i < |flat| :: LeafInBox(IndiaBox, flat[i]) {
            var i :| 0 <= i < |flat| && LeafInBox(IndiaBox, flat[i]);
            FlattenMembers(c, flat[i]);
          }
        }
      }
    }
  }

  /** Point test: a leaf `[lng, lat, ...]` of two numbers is in the region iff
      both lie in their ranges, inclusive on both ends. */
  lemma PointTest(d: string, coords: seq<JVal>, lng: real, lat: real)
    requires |coords| >= 2 && coords[0] == Num(lng) && coords[1] == Num(lat)
    ensures GeometryWithinIndia(Present(d, Arr(coords))) <==>
      6.0 <= lat <= 37.5 && 68.0 <= lng <= 97.5
  {
  }

  /** A leaf with a longitude and no latitude compares `undefined`, which fails. */
  lemma PointWithoutLatitude(d: string, lng: real)
    ensures !GeometryWithinIndia(Present(d, Arr([Num(lng)])))
  {
  }

  /** A shape that merely clips the box counts as inside: one leaf in the box
      suffices when no null is reachable. */
  lemma ShapeClips(d: string, coords: JVal, w: JVal)
    requires !ReachesNull(coords) && HasLeaf(coords, w) && LeafInBox(IndiaBox, w)
    ensures GeometryWithinIndia(Present(d, coords))
  {
    WithinIndiaIff(Present(d, coords));
  }

  /** A null among the children of a shape rejects the whole geometry, even
      when earlier children have leaves inside the box: the walk throws
      before the `.some` test runs. */
  lemma NullRejectsWhole(d: string, before: seq<JVal>, after: seq<JVal>)
    requires before == [] || !before[0].Num?
    ensures !GeometryWithinIndia(Present(d, Arr(before + [Null] + after)))
  {
    var s := before + [Null] + after;
    assert s[|before|] == Null;
    assert !IsLeaf(Arr(s));
    assert ReachesNull(Arr(s));
  }

  /** A null inside a leaf is never indexed: `[80, null]` is pushed whole and
      only fails its own box test, so `[[80, null], [80, 20]]` is in. */
  lemma NullInsideLeaf(d: string)
    ensures GeometryWithinIndia(Present(d, Arr([Arr([Num(80.0), Null]), Arr([Num(80.0), Num(20.0)])])))
  {
    var a, b := Arr([Num(80.0), Null]), Arr([Num(80.0), Num(20.0)]);
    assert [a, b][1] == b;
    assert HasLeaf(Arr([a, b]), b);
    assert !ReachesNull(Arr([a, b])) by {
      forall i | 0 <= i < 2 ensures !ReachesNull([a, b][i]) { }
    }
    ShapeClips(d, Arr([a, b]), b);
  }

  /** A geometry whose coordinates are missing or null is excluded. */
  lemma NullCoordinatesExcluded(d: string)
    ensures !GeometryWithinIndia(Present(d, Null))
    ensures !GeometryWithinIndia(Absent)
  {
  }

  /** Delhi (77.2, 28.6) is inside; New York (-74.0, 40.7) is not. */
  lemma CityScenarios(d: string)
    ensures GeometryWithinIndia(Present(d, Arr([Num(77.2), Num(28.6)])))
    ensures !GeometryWithinIndia(Present(d, Arr([Num(-74.0), Num(40.7)])))
  {
    PointTest(d, [Num(77.2), Num(28.6)], 77.2, 28.6);
    PointTest(d, [Num(-74.0), Num(40.7)], -74.0, 40.7);
  }

  /** A polygon ring whose corners all lie outside the box except one is in. */
  lemma OneCornerInside(d: string)
    ensures GeometryWithinIndia(Present(d, Arr([Arr([
      Arr([Num(60.0), Num(0.0)]), Arr([Num(70.0), Num(10.0)]),
      Arr([Num(60.0), Num(50.0)]), Arr([Num(60.0), Num(0.0)])])])))
  {
    var a, b, c := Arr([Num(60.0), Num(0.0)]), Arr([Num(70.0), Num(10.0)]), Arr([Num(60.0), Num(50.0)]);
    var ring := Arr([a, b, c, a]);
    assert [a, b, c, a][1] == b;
    assert HasLeaf(ring, b);
    assert HasLeaf(Arr([ring]), b) by { assert [ring][0] == ring; }
    assert !ReachesNull(Arr([ring])) by {
      assert !ReachesNull(ring) by {
        forall i | 0 <= i < 4 ensures !ReachesNull([a, b, c, a][i]) { }
      }
    }
    ShapeClips(d, Arr([ring]), b);
  }
}
