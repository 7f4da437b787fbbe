/**
 * Points, boxes and rectangles of the host modelling environment, the
 * coordinate transforms the component applies, and the rectangular ring it
 * hands to the dataset reader as a spatial filter.
 *
 * Coordinates are reals: floating-point rounding is not modelled.  The four
 * transforms are uninterpreted functions supplied by the caller.
 */
module Geometry {

  /** A 3D point (Rhino's Point3d). */
  datatype Point3 = Point3(x: real, y: real, z: real)

  /** A vertex of a polygon ring in well-known text: only x and y are written. */
  datatype XY = XY(x: real, y: real)

  /** An axis-aligned bounding box given by its two extreme corners. */
  datatype Box = Box(min: Point3, max: Point3)

  /** A rectangle on the world XY plane (Rhino's Rectangle3d on Plane.WorldXY), spanned by two corners. */
  datatype Rectangle = Rectangle(a: XY, b: XY)

  /** An OGR envelope: the extent of a layer in its native spatial reference. */
  datatype Envelope = Envelope(minX: real, maxX: real, minY: real, maxY: real)

  /**
   * The transforms the component uses, all supplied from outside:
   * toEarth/toModel are the document's model-to-earth transform and its
   * inverse; toWgs84/toNative are the coordinate transformations from the
   * layer's spatial reference to WGS84 and back.
   */
  datatype Transforms = Transforms(
    toEarth: Point3 -> Point3,
    toModel: Point3 -> Point3,
    toWgs84: Point3 -> Point3,
    toNative: Point3 -> Point3)

  function Min(u: real, v: real): real { if u <= v then u else v }

  function Max(u: real, v: real): real { if u <= v then v else u }

  /** Inclusive containment of a point in a box, on all three axes. */
  predicate Contains(box: Box, p: Point3) {
    && box.min.x <= p.x <= box.max.x
    && box.min.y <= p.y <= box.max.y
    && box.min.z <= p.z <= box.max.z
  }

  /** The rectangle on the world XY plane spanned by two points; their z is dropped. */
  function RectangleOf(a: Point3, b: Point3): Rectangle {
    Rectangle(XY(a.x, a.y), XY(b.x, b.y))
  }

  /** The bounding box of a rectangle: the smallest box, flat at z = 0, holding both corners. */
  function BoundingBox(r: Rectangle): (box: Box)
    ensures box.min.z == 0.0 && box.max.z == 0.0
    ensures Contains(box, Point3(r.a.x, r.a.y, 0.0)) && Contains(box, Point3(r.b.x, r.b.y, 0.0))
    ensures (box.min.x == r.a.x || box.min.x == r.b.x) && (box.max.x == r.a.x || box.max.x == r.b.x)
    ensures (box.min.y == r.a.y || box.min.y == r.b.y) && (box.max.y == r.a.y || box.max.y == r.b.y)
  {
    Box(Point3(Min(r.a.x, r.b.x), Min(r.a.y, r.b.y), 0.0),
        Point3(Max(r.a.x, r.b.x), Max(r.a.y, r.b.y), 0.0))
  }

  /**
   * The transforms come in inverse pairs: model-to-earth and earth-to-model,
   * native-to-WGS84 and WGS84-to-native.
   */
  ghost predicate Invertible(xf: Transforms) {
    && (forall q :: xf.toModel(xf.toEarth(q)) == q)
    && (forall q :: xf.toEarth(xf.toModel(q)) == q)
    && (forall q :: xf.toWgs84(xf.toNative(q)) == q)
    && (forall q :: xf.toNative(xf.toWgs84(q)) == q)
  }

  /** A dataset vertex taken to model space: native -> WGS84 -> model. */
  function ToLocal(xf: Transforms, p: Point3): (q: Point3)
    ensures Invertible(xf) ==> xf.toNative(xf.toEarth(q)) == p
  {
    xf.toModel(xf.toWgs84(p))
  }

  /** A model-space point taken to the dataset's native spatial reference: model -> WGS84 -> native. */
  function ToNative(xf: Transforms, p: Point3): (q: Point3)
    ensures Invertible(xf) ==> ToLocal(xf, q) == p
  {
    xf.toNative(xf.toEarth(p))
  }

  /**
   * The layer's extent as a model-space rectangle: the envelope's lower-left
   * and upper-right corners (z = 0) are each taken to model space.
   */
  function ExtentRectangle(env: Envelope, xf: Transforms): (r: Rectangle)
    ensures var lo := ToLocal(xf, Point3(env.minX, env.minY, 0.0));
            var hi := ToLocal(xf, Point3(env.maxX, env.maxY, 0.0));
            && r.a == XY(lo.x, lo.y) && r.b == XY(hi.x, hi.y)
            && Contains(BoundingBox(r), Point3(lo.x, lo.y, 0.0))
            && Contains(BoundingBox(r), Point3(hi.x, hi.y, 0.0))
  {
    RectangleOf(ToLocal(xf, Point3(env.minX, env.minY, 0.0)),
                ToLocal(xf, Point3(env.maxX, env.maxY, 0.0)))
  }

  /**
   * A boundary is clipped only when both corners of its bounding box lie in
   * the extent's bounding box; it then lies wholly in that box.
   */
  function Inside(extent: Rectangle, boundary: Box): (r: bool)
    ensures r ==> forall p :: Contains(boundary, p) ==> Contains(BoundingBox(extent), p)
    ensures !r ==> !Contains(BoundingBox(extent), boundary.min) || !Contains(BoundingBox(extent), boundary.max)
  {
    Contains(BoundingBox(extent), boundary.min) && Contains(BoundingBox(extent), boundary.max)
  }

  /**
   * The spatial filter ring built from the reprojected corners lo and hi:
   * (lo.x,lo.y), (lo.x,hi.y), (hi.x,hi.y), (hi.x,lo.y), (lo.x,lo.y).
   */
  function FilterRing(lo: Point3, hi: Point3): (ring: seq<XY>)
    ensures |ring| == 5 && ring[0] == ring[4] == XY(lo.x, lo.y)
    ensures ring[1] == XY(lo.x, hi.y) && ring[2] == XY(hi.x, hi.y) && ring[3] == XY(hi.x, lo.y)
    ensures forall k :: 0 <= k < 5 ==> (ring[k].x == lo.x || ring[k].x == hi.x) && (ring[k].y == lo.y || ring[k].y == hi.y)
    ensures forall k :: 0 <= k < 4 ==> ring[k].x == ring[k + 1].x || ring[k].y == ring[k + 1].y
    ensures XY(lo.x, hi.y) in ring && XY(hi.x, hi.y) in ring && XY(hi.x, lo.y) in ring
  {
    [XY(lo.x, lo.y), XY(lo.x, hi.y), XY(hi.x, hi.y), XY(hi.x, lo.y), XY(lo.x, lo.y)]
  }

  /**
   * The filter ring of one boundary: a closed five-vertex ring whose every
   * vertex is a corner of the boundary's bounding box taken to native
   * coordinates.
   */
  function BoundaryFilter(b: Box, xf: Transforms): (ring: seq<XY>)
    ensures var lo := ToNative(xf, b.min);
            var hi := ToNative(xf, b.max);
            && |ring| == 5 && ring[0] == ring[4] == XY(lo.x, lo.y)
            && (forall k :: 0 <= k < 5 ==> (ring[k].x == lo.x || ring[k].x == hi.x) && (ring[k].y == lo.y || ring[k].y == hi.y))
            && XY(lo.x, hi.y) in ring && XY(hi.x, hi.y) in ring && XY(hi.x, lo.y) in ring
  {
    FilterRing(ToNative(xf, b.min), ToNative(xf, b.max))
  }

  /** When lo and hi differ on both axes, the ring's four corners are distinct and every edge is axis-parallel. */
  lemma FilterRingIsRectangle(lo: Point3, hi: Point3)
    requires lo.x != hi.x && lo.y != hi.y
    ensures var ring := FilterRing(lo, hi);
      && (forall k, l :: 0 <= k < l < 4 ==> ring[k] != ring[l])
      && (forall k :: 0 <= k < 4 ==> (ring[k].x == ring[k + 1].x) != (ring[k].y == ring[k + 1].y))
  {
  }
}
