/**
 * The ImportSHP component's SolveInstance: it reads the dataset's layers and
 * their feature counts, then for every boundary whose bounding box lies
 * within the first layer's extent it filters that layer by the boundary's
 * rectangle and writes every vertex of every feature into a point tree at
 * path (boundary, feature, part) and the feature's field values into a value
 * tree at path (boundary, feature).
 *
 * Each nested loop of the source is one method here; each is proved against
 * Layout.Describes: after it, the two trees are exactly those the plan,
 * extended by what the loop has read, calls for.
 */
module ImportShp {
  import opened Wrappers
  import opened Geometry
  import opened Dataset
  import opened DataTree
  import opened Layout

  /**
   * Why a run produces no output: a layer the dataset advertises cannot be
   * fetched (the component exits the process), the dataset has no layer at
   * all (the component indexes the empty layer list), or the first layer has
   * no spatial reference (the component dereferences the missing reference).
   */
  datatype Error = LayerFetchFailed(index: nat) | NoLayers | NoSpatialRef

  /** The component's outputs, in output order, and the boundaries for which the out-of-bounds warning was raised. */
  datatype Output = Output(
    layerName: string,
    featureCounts: seq<int>,
    extent: Rectangle,
    spatialRef: string,
    fieldNames: seq<string>,
    values: Tree<ValuePath, string>,
    points: Tree<PointPath, Point3>,
    warnings: seq<nat>)

  /**
   * The layer loop: fetch every advertised layer in index order and record
   * its feature count; the first layer that cannot be fetched aborts the run.
   */
  method FetchLayers(dataset: seq<Option<Layer>>) returns (r: Result<(seq<int>, seq<Layer>), Error>)
    ensures r.Success? <==> forall k :: 0 <= k < |dataset| ==> dataset[k].Some?
    ensures r.Failure? ==>
      && r.error.LayerFetchFailed?
      && r.error.index < |dataset| && dataset[r.error.index].None?
      && forall k :: 0 <= k < r.error.index ==> dataset[k].Some?
    ensures r.Success? ==>
      && |r.value.0| == |dataset| && |r.value.1| == |dataset|
      && forall k :: 0 <= k < |dataset| ==>
           r.value.0[k] == dataset[k].value.featureCount && r.value.1[k] == dataset[k].value
  {
    var fc: seq<int> := [];
    var layerset: seq<Layer> := [];
    for iLayer := 0 to |dataset|
      invariant |fc| == iLayer && |layerset| == iLayer
      invariant forall k :: 0 <= k < iLayer ==>
        dataset[k].Some? && fc[k] == dataset[k].value.featureCount && layerset[k] == dataset[k].value
    {
      if dataset[iLayer].None? {
        return Failure(LayerFetchFailed(iLayer));
      }
      var layer := dataset[iLayer].value;
      fc := fc + [layer.featureCount];
      layerset := layerset + [layer];
    }
    return Success((fc, layerset));
  }

  /** The field-name loop: the names of the schema's fields, in field order. */
  method FieldNames(schema: seq<FieldDefn>) returns (names: seq<string>)
    ensures |names| == |schema|
    ensures forall k :: 0 <= k < |schema| ==> names[k] == schema[k].name
  {
    names := [];
    for iAttr := 0 to |schema|
      invariant |names| == iAttr
      invariant forall k :: 0 <= k < iAttr ==> names[k] == schema[k].name
    {
      names := names + [schema[iAttr].name];
    }
  }

  /**
   * The field loop: append one text per field to the branch at key, the
   * field's text when it is set and "null" when it is not.
   */
  method AppendFieldValues(values: Tree<ValuePath, string>, key: ValuePath, fields: seq<FieldValue>)
    returns (r: Tree<ValuePath, string>)
    ensures r == AppendAll(values, key, Render(fields))
  {
    r := values;
    for iField := 0 to |fields|
      invariant r == AppendAll(values, key, Render(fields)[..iField])
    {
      assert Render(fields)[..iField + 1] == Render(fields)[..iField] + [Text(fields[iField])];
      AppendAllThenAppend(values, key, Render(fields)[..iField], Text(fields[iField]));
      if fields[iField].Set? {
        r := Append(r, key, fields[iField].text);
      } else {
        r := Append(r, key, "null");
      }
    }
    assert Render(fields)[..|fields|] == Render(fields);
  }

  /**
   * The vertex loop over part gi of feature m of boundary i: each vertex is
   * taken to model space and appended to point path (i, m, gi); then value
   * path (i, m) is cleared if it exists and the feature's field values are
   * appended to it.  Afterwards the current part holds all of pts, and no
   * other point path has changed.
   */
  method CollectPart(points: Tree<PointPath, Point3>, values: Tree<ValuePath, string>, xf: Transforms,
                     i: nat, m: nat, gi: nat, pts: seq<Point3>, fields: seq<FieldValue>,
                     ghost base: Plan, ghost rs: seq<Record>, ghost q: seq<seq<Point3>>)
    returns (points': Tree<PointPath, Point3>, values': Tree<ValuePath, string>)
    requires i == |base| && m == |rs| && gi == |q|
    requires Describes(points, values, base + [Some(rs + [Record(q, fields)])], xf)
    ensures Describes(points', values', base + [Some(rs + [Record(q + [pts], fields)])], xf)
    ensures points' - {(i, m, gi)} == points - {(i, m, gi)}
  {
    AddPart(points, values, base, rs, q, fields, xf);
    points', values' := points, values;
    for ptnum := 0 to |pts|
      invariant Describes(points', values', base + [Some(rs + [Record(q + [pts[..ptnum]], fields)])], xf)
      invariant points' - {(i, m, gi)} == points - {(i, m, gi)}
    {
      var pt3D := ToLocal(xf, pts[ptnum]);
      var gset := Append(points', (i, m, gi), pt3D);
      AppendPath(points', (i, m, gi), pt3D);

      var fset := values';
      if (i, m) in fset {
        fset := fset[(i, m) := []];
      }
      assert fset == ClearBranch(values', (i, m));
      fset := AppendFieldValues(fset, (i, m), fields);

      AddVertexAt(points', values', gset, fset, base, rs, q, pts, ptnum, fields, xf);
      points', values' := gset, fset;
    }
    assert pts[..|pts|] == pts;
  }

  /**
   * The part loop over the sub-geometries of feature m of boundary i.
   * Afterwards the plan holds the feature with all its parts.
   */
  method CollectFeature(points: Tree<PointPath, Point3>, values: Tree<ValuePath, string>, xf: Transforms,
                        i: nat, m: nat, parts: seq<seq<Point3>>, fields: seq<FieldValue>,
                        ghost base: Plan, ghost rs: seq<Record>)
    returns (points': Tree<PointPath, Point3>, values': Tree<ValuePath, string>)
    requires i == |base| && m == |rs|
    requires Describes(points, values, base + [Some(rs)], xf)
    ensures Describes(points', values', base + [Some(rs + [Record(parts, fields)])], xf)
  {
    AddRecord(points, values, base, rs, fields, xf);
    points', values' := points, values;
    for gi := 0 to |parts|
      invariant Describes(points', values', base + [Some(rs + [Record(parts[..gi], fields)])], xf)
    {
      points', values' := CollectPart(points', values', xf, i, m, gi, parts[gi], fields, base, rs, parts[..gi]);
      assert parts[..gi] + [parts[gi]] == parts[..gi + 1];
    }
    assert parts[..|parts|] == parts;
  }

  /**
   * The feature loop of boundary i: the counter m starts at 0 and advances
   * only past features that have a geometry; features without one are
   * passed over.  Afterwards the plan holds boundary i with every
   * geometry-bearing feature the reader yielded, at its feature index.
   */
  method CollectBoundary(points: Tree<PointPath, Point3>, values: Tree<ValuePath, string>, xf: Transforms,
                         i: nat, feats: seq<Feature>, ghost base: Plan)
    returns (points': Tree<PointPath, Point3>, values': Tree<ValuePath, string>)
    requires i == |base|
    requires Describes(points, values, base, xf)
    ensures Describes(points', values', base + [Some(Indexed(feats))], xf)
  {
    OpenBoundary(points, values, base, xf, Some([]));
    assert feats[..0] == [];
    points', values' := points, values;
    var m := 0;
    var j := 0;
    while j < |feats|
      invariant 0 <= j <= |feats|
      invariant m == |Indexed(feats[..j])|
      invariant Describes(points', values', base + [Some(Indexed(feats[..j]))], xf)
    {
      var feat := feats[j];
      IndexedGrows(feats, j);
      if feat.geometry.Some? {
        points', values' := CollectFeature(points', values', xf, i, m, feat.geometry.value, feat.fields,
                                           base, Indexed(feats[..j]));
        assert Indexed(feats[..j + 1]) == Indexed(feats[..j]) + [Record(feat.geometry.value, feat.fields)];
        m := m + 1;
      } else {
        assert Indexed(feats[..j + 1]) == Indexed(feats[..j]);
      }
      j := j + 1;
    }
    assert feats[..|feats|] == feats;
  }

  /** What boundary b contributes: nothing when it is outside the extent, else the features read through its filter. */
  function ClipOf(extent: Rectangle, b: Box, xf: Transforms, reader: seq<XY> -> seq<Feature>): (clip: Option<seq<Record>>)
    ensures clip.None? <==> !Inside(extent, b)
    ensures clip.Some? ==> |clip.value| <= |reader(BoundaryFilter(b, xf))|
  {
    if Inside(extent, b) then Some(Indexed(reader(BoundaryFilter(b, xf)))) else None
  }

  /** The plan of a whole run: one entry per boundary, in input order. */
  function PlanOf(extent: Rectangle, boundaries: seq<Box>, xf: Transforms, reader: seq<XY> -> seq<Feature>): (plan: Plan)
    ensures |plan| == |boundaries|
    ensures forall i :: 0 <= i < |boundaries| ==> (plan[i].None? <==> !Inside(extent, boundaries[i]))
  {
    seq(|boundaries|, i requires 0 <= i < |boundaries| => ClipOf(extent, boundaries[i], xf, reader))
  }

  /** The indices of the first n boundaries that fail the extent test, in boundary order. */
  function Skipped(extent: Rectangle, boundaries: seq<Box>, n: nat): seq<nat>
    requires n <= |boundaries|
  {
    if n == 0 then []
    else Skipped(extent, boundaries, n - 1) + (if Inside(extent, boundaries[n - 1]) then [] else [n - 1])
  }

  /**
   * The skipped indices are exactly the failing boundaries among the first
   * n, each once, in increasing order.
   */
  lemma {:induction false} SkippedSpec(extent: Rectangle, boundaries: seq<Box>, n: nat)
    requires n <= |boundaries|
    ensures forall k: nat :: k in Skipped(extent, boundaries, n) <==> k < n && !Inside(extent, boundaries[k])
    ensures forall a, b :: 0 <= a < b < |Skipped(extent, boundaries, n)| ==>
              Skipped(extent, boundaries, n)[a] < Skipped(extent, boundaries, n)[b]
    ensures forall a :: 0 <= a < |Skipped(extent, boundaries, n)| ==> Skipped(extent, boundaries, n)[a] < n
  {
    if n > 0 {
      SkippedSpec(extent, boundaries, n - 1);
    }
  }

  /**
   * One pass of the boundary loop: a boundary that passes the extent test
   * is filtered and collected, any other one is skipped.  Afterwards the
   * trees describe the plan extended by what this boundary contributes.
   */
  method ClipBoundary(gset: Tree<PointPath, Point3>, fset: Tree<ValuePath, string>, rec: Rectangle, b: Box,
                      i: nat, xf: Transforms, reader: seq<XY> -> seq<Feature>, ghost base: Plan)
    returns (gset': Tree<PointPath, Point3>, fset': Tree<ValuePath, string>, skipped: bool)
    requires i == |base|
    requires Describes(gset, fset, base, xf)
    ensures Describes(gset', fset', base + [ClipOf(rec, b, xf, reader)], xf)
    ensures skipped <==> !Inside(rec, b)
  {
    if Inside(rec, b) {
      var ebbox := BoundaryFilter(b, xf);
      var feats := reader(ebbox);
      gset', fset' := CollectBoundary(gset, fset, xf, i, feats, base);
      skipped := false;
    } else {
      OpenBoundary(gset, fset, base, xf, None);
      gset', fset', skipped := gset, fset, true;
    }
  }

  /**
   * The boundary loop: every boundary that passes the extent test is clipped
   * and collected; every other one raises the out-of-bounds warning.  The
   * trees are those the plan of the whole run describes, and the warnings
   * are the indices of the skipped boundaries, in boundary order.
   */
  method ClipBoundaries(rec: Rectangle, boundaries: seq<Box>, xf: Transforms, reader: seq<XY> -> seq<Feature>)
    returns (gset: Tree<PointPath, Point3>, fset: Tree<ValuePath, string>, warnings: seq<nat>)
    ensures Describes(gset, fset, PlanOf(rec, boundaries, xf, reader), xf)
    ensures forall k: nat :: k in warnings <==> k < |boundaries| && !Inside(rec, boundaries[k])
    ensures forall a, b :: 0 <= a < b < |warnings| ==> warnings[a] < warnings[b]
  {
    ghost var plan := PlanOf(rec, boundaries, xf, reader);
    fset := map[];
    gset := map[];
    warnings := [];
    for i := 0 to |boundaries|
      invariant Describes(gset, fset, plan[..i], xf)
      invariant warnings == Skipped(rec, boundaries, i)
    {
      var skipped;
      gset, fset, skipped := ClipBoundary(gset, fset, rec, boundaries[i], i, xf, reader, plan[..i]);
      PrefixStep(gset, fset, plan, i, xf);
      if skipped {
        warnings := warnings + [i];
      }
    }
    assert plan[..|boundaries|] == plan;
    SkippedSpec(rec, boundaries, |boundaries|);
  }

  /**
   * The whole run.  The dataset is given as its advertised layers (None for
   * one that cannot be fetched); reader gives the features the first layer
   * yields once the given ring is set as its spatial filter.
   */
  method SolveInstance(dataset: seq<Option<Layer>>, boundaries: seq<Box>, xf: Transforms,
                       reader: seq<XY> -> seq<Feature>)
    returns (r: Result<Output, Error>)
    ensures r.Failure? <==>
      || |dataset| == 0
      || (exists k :: 0 <= k < |dataset| && dataset[k].None?)
      || dataset[0].value.spatialRefWkt.None?
    ensures r == Failure(NoLayers) <==> |dataset| == 0
    ensures (exists k :: 0 <= k < |dataset| && dataset[k].None?) ==> r.Failure? && r.error.LayerFetchFailed?
    ensures r.Failure? && r.error.LayerFetchFailed? ==>
      && r.error.index < |dataset| && dataset[r.error.index].None?
      && forall k :: 0 <= k < r.error.index ==> dataset[k].Some?
    ensures r.Failure? && r.error.NoSpatialRef? ==>
      && |dataset| > 0
      && (forall k :: 0 <= k < |dataset| ==> dataset[k].Some?)
      && dataset[0].value.spatialRefWkt.None?
    ensures r.Success? ==>
      var layer := dataset[0].value;
      var out := r.value;
      var extent := ExtentRectangle(layer.extent, xf);
      && out.layerName == layer.name
      && |out.featureCounts| == |dataset|
      && (forall k :: 0 <= k < |dataset| ==> out.featureCounts[k] == dataset[k].value.featureCount)
      && out.extent == extent
      && layer.spatialRefWkt == Some(out.spatialRef)
      && |out.fieldNames| == |layer.schema|
      && (forall k :: 0 <= k < |layer.schema| ==> out.fieldNames[k] == layer.schema[k].name)
      && Describes(out.points, out.values, PlanOf(extent, boundaries, xf, reader), xf)
      && (forall k: nat :: k in out.warnings <==> k < |boundaries| && !Inside(extent, boundaries[k]))
      && (forall a, b :: 0 <= a < b < |out.warnings| ==> out.warnings[a] < out.warnings[b])
  {
    var fetched := FetchLayers(dataset);
    if fetched.Failure? {
      return Failure(fetched.error);
    }
    var fc := fetched.value.0;
    var layerset := fetched.value.1;
    if |layerset| == 0 {
      return Failure(NoLayers);
    }
    var layer := layerset[0];
    if layer.spatialRefWkt.None? {
      return Failure(NoSpatialRef);
    }
    var rec := ExtentRectangle(layer.extent, xf);
    var gset, fset, warnings := ClipBoundaries(rec, boundaries, xf, reader);
    var fieldnames := FieldNames(layer.schema);
    return Success(Output(layer.name, fc, rec, layer.spatialRefWkt.value, fieldnames, fset, gset, warnings));
  }
}
