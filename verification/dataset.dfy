/**
 * What the component reads from the vector dataset: layers with their
 * feature counts, extents, spatial references and field schemas, and the
 * features a layer yields once a spatial filter is set.
 */
module Dataset {
  import opened Wrappers
  import opened Geometry

  /** A field of a feature: a value rendered as text, or not set. */
  datatype FieldValue = Set(text: string) | Unset

  /** A field definition of the layer schema. */
  datatype FieldDefn = FieldDefn(name: string)

  /**
   * A feature as the reader yields it: an optional geometry and its field
   * values in schema order.  A geometry is given as its direct
   * sub-geometries (a polygon's rings, a multi-geometry's members), each
   * as the ordered list of points the library reports for it directly, in
   * the layer's native spatial reference.  A point or line string thus has
   * no sub-geometries, and a member polygon of a multi-polygon has no
   * points of its own.
   */
  datatype Feature = Feature(geometry: Option<seq<seq<Point3>>>, fields: seq<FieldValue>)

  /**
   * A layer of the dataset, with the facts the component reads from it.  A
   * layer need not carry a spatial reference (a shapefile without a .prj
   * file): spatialRefWkt is then None.
   */
  datatype Layer = Layer(
    name: string,
    featureCount: int,
    extent: Envelope,
    spatialRefWkt: Option<string>,
    schema: seq<FieldDefn>)

  /** The text written for one field value: the value itself when set, the literal "null" when not. */
  function Text(v: FieldValue): (s: string)
    ensures v.Set? ==> s == v.text
    ensures v.Unset? ==> s == "null"
  {
    match v
    case Set(s) => s
    case Unset => "null"
  }

  /** The texts of a feature's field values: one per field, in field order. */
  function Render(fields: seq<FieldValue>): (texts: seq<string>)
    ensures |texts| == |fields|
    ensures forall n :: 0 <= n < |fields| && fields[n].Set? ==> texts[n] == fields[n].text
    ensures forall n :: 0 <= n < |fields| && fields[n].Unset? ==> texts[n] == "null"
  {
    seq(|fields|, n requires 0 <= n < |fields| => Text(fields[n]))
  }
}
