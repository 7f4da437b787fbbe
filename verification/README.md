# ImportSHP clip-and-collect, modelled in Dafny

This project models the core of Heron's `ImportSHP` Grasshopper component. The component reads
a shapefile and clips its first layer to a list of boundary curves. For every clipped feature it
writes the vertices of each direct sub-geometry (a polygon's rings, a multi-geometry's members)
into a point tree. For every feature that wrote a vertex and has fields, it writes the field
values into a value tree. Both trees are keyed by paths:

- point path `(i, m, gi)`: boundary `i`, feature index `m`, sub-geometry `gi`;
- value path `(i, m)`: boundary `i`, feature index `m`.

`SolveInstance` works in four steps, and the model follows them:

1. **Layer loop.** It fetches every advertised layer in index order and records each layer's
   feature count. If a layer cannot be fetched, the run aborts.
2. **Extent rectangle.** It takes the first layer's extent to model space as a rectangle on
   the world XY plane. The first layer's spatial reference is read at this point. A first
   layer with no spatial reference (a shapefile without a `.prj` file) makes the component
   throw. The model returns `Failure(NoSpatialRef)` for it.
3. **Boundary loop.** A boundary is clipped only when both corners of its bounding box lie in
   that rectangle. Otherwise the component raises a warning and moves on to the next boundary.
   For a clipped boundary, it builds a five-vertex filter ring from the bounding-box corners,
   taken to the layer's native coordinates. It then walks the features the layer yields under
   that filter:
   - the counter `m` starts at 0 for each boundary and counts only features with a geometry;
   - every vertex of sub-geometry `gi` is appended to point path `(i, m, gi)`;
   - for every vertex, value path `(i, m)` is cleared if it exists, and then the feature's
     field texts are appended again. An unset field is written as `"null"`.
4. **Field names.** It collects the names of the layer's fields.

The loops are imperative methods over map-valued trees (`import_shp.dfy`). Each tree-building
loop (`CollectPart`, `CollectFeature`, `CollectBoundary`, `ClipBoundaries`) is proved against
one independent description of the result, `Layout.Describes` (`layout.dfy`).
A `Plan` lists, for each boundary, either "skipped" or its geometry-bearing features in reader
order. `Describes(points, values, plan)` holds when:

- point path `(i, m, gi)` exists exactly when that part has a vertex, and it holds the part's
  vertices in model space, in vertex order;
- value path `(i, m)` exists exactly when the feature has a vertex and at least one field, and
  it holds one copy of the field texts.

Every loop invariant says the trees are those of the plan cut off where the loop has got to.

The value-branch clear (ImportSHP.cs:199-202) sits inside the vertex loop. So after the last
vertex, a feature's value branch holds **one** copy of its field values, not one copy per
vertex (`DataTree.RefillTwice`, `Layout.ValueBranch`).

Coordinates are reals. The four coordinate transforms are uninterpreted functions: model to
WGS84 and back, and native to WGS84 and back. The dataset reader is a function from a filter
ring to the sequence of features the first layer yields under it.

## Model

| member | source | states |
|---|---|---|
| `Geometry.BoundingBox` | LiveComponentDemo/ImportSHP.cs:120-131 | the box of the extent rectangle is flat at z = 0, holds both corners, and each of its faces touches a corner, so it is the smallest such box |
| `Geometry.ToLocal` | LiveComponentDemo/ImportSHP.cs:183-194 | a dataset vertex is taken to model space through WGS84. When the transforms come in inverse pairs, taking the result back to native coordinates gives the vertex again |
| `Geometry.ToNative` | LiveComponentDemo/ImportSHP.cs:135-147 | a model-space point is taken to the layer's native coordinates through WGS84. When the transforms come in inverse pairs, `ToLocal` of the result gives the point again |
| `Geometry.ExtentRectangle` | LiveComponentDemo/ImportSHP.cs:92-120 | the extent rectangle's corners are the envelope's lower-left and upper-right corners (z = 0) taken to model space with z dropped, and its bounding box holds both |
| `Geometry.Inside` | LiveComponentDemo/ImportSHP.cs:131 | a boundary passes when both corners of its bounding box lie in the extent's bounding box, and then every point of its box lies in the extent's box. A boundary that fails has a corner outside |
| `Geometry.FilterRing` | LiveComponentDemo/ImportSHP.cs:150 | the filter ring has five vertices and runs (minX, minY), (minX, maxY), (maxX, maxY), (maxX, minY), back to (minX, minY), so it is closed; every vertex is a corner of the reprojected box; consecutive vertices share a coordinate; all four corners appear |
| `Geometry.FilterRingIsRectangle` | LiveComponentDemo/ImportSHP.cs:150 | when the two corners differ on both axes, the ring's first four vertices are distinct and each edge runs along exactly one axis |
| `Geometry.BoundaryFilter` | LiveComponentDemo/ImportSHP.cs:135-150 | a boundary's filter ring is closed, with five vertices, and every vertex is a corner of the boundary's bounding box taken to native coordinates. All four corners appear |
| `Dataset.Text` | LiveComponentDemo/ImportSHP.cs:206-213 | a set field is written as its text, and an unset field as "null" |
| `Dataset.Render` | LiveComponentDemo/ImportSHP.cs:203-213 | a feature's field texts: one per field, in field order, with a set field's text or "null" |
| `DataTree.AppendPath` | LiveComponentDemo/ImportSHP.cs:194 | appending an item adds it at the end of the branch at the path, creating the path if it is missing. Every other path keeps its branch |
| `DataTree.ClearBranchPath` | LiveComponentDemo/ImportSHP.cs:199-202 | clearing an existing path empties its branch and keeps the path. Every other branch is unchanged |
| `DataTree.AppendAllPath` | LiveComponentDemo/ImportSHP.cs:203-214 | appending a list of texts adds them in order to the branch at the path. An empty list changes nothing, and every other path keeps its branch |
| `DataTree.RefillTwice` | LiveComponentDemo/ImportSHP.cs:199-214 | clearing an existing branch and re-appending the field texts is idempotent: doing it for a second vertex leaves what the first left, the branch holds exactly one copy, and no other branch changes |
| `Layout.Indexed` | LiveComponentDemo/ImportSHP.cs:162-164 | the geometry-bearing features are at most as many as the features read |
| `Layout.IndexedGrows` | LiveComponentDemo/ImportSHP.cs:162-164 | reading one more feature extends the indexed list by that feature exactly when it has a geometry |
| `Layout.IndexedPrefix` | LiveComponentDemo/ImportSHP.cs:161-164 | the indexed list only grows as the reader advances |
| `Layout.FeatureIndex` | LiveComponentDemo/ImportSHP.cs:161-219 | the m given to a feature with a geometry, which is the number of such features before it, is below the boundary's count of such features, and the indexed list holds that feature at position m |
| `Layout.FeatureIndexIncreasing` | LiveComponentDemo/ImportSHP.cs:161-219 | geometry-bearing features get strictly increasing m, so no m is reused within a boundary |
| `Layout.EveryFeatureIndexUsed` | LiveComponentDemo/ImportSHP.cs:161-219 | every m below the count k of geometry-bearing features is given to one of them, so the m values are exactly 0..k-1 |
| `Layout.OpenBoundary` | LiveComponentDemo/ImportSHP.cs:129-161 | loop step for the start of a boundary, before m = 0 is used, whether skipped or not: the trees already describe the plan with the new boundary added, since it calls for no path yet |
| `Layout.AddRecord` | LiveComponentDemo/ImportSHP.cs:164-171 | loop step for the start of a geometry-bearing feature at the current m: the trees already describe the plan with the feature added, since it calls for no path until its first vertex |
| `Layout.AddPart` | LiveComponentDemo/ImportSHP.cs:171-176 | loop step for the start of sub-geometry gi: the trees already describe the plan with the empty part added, since no vertex has been appended |
| `Layout.AddVertex` | LiveComponentDemo/ImportSHP.cs:176-214 | appending a vertex to point path (i, m, gi), then clearing and refilling value path (i, m), gives exactly the trees of the plan whose current part has one more vertex |
| `Layout.SkippedBoundaryIsEmpty` | LiveComponentDemo/ImportSHP.cs:224-228 | a skipped boundary has no path in either tree |
| `Layout.PointBranch` | LiveComponentDemo/ImportSHP.cs:171-194 | point path (i, m, gi) exists exactly when the part has a vertex; its length is then the part's point count, and entry n is vertex n taken to model space |
| `Layout.ValueBranch` | LiveComponentDemo/ImportSHP.cs:199-214 | value path (i, m) exists exactly when the feature has a vertex and a field; it then holds one copy of the field values in field order, with the text for a set field and "null" for an unset one |
| `Layout.PrefixesMatch` | LiveComponentDemo/ImportSHP.cs:194-214 | a point path's (i, m) prefix is a value path exactly when the feature has fields, and every value path is the prefix of some point path |
| `Layout.SingleRingScenario` | LiveComponentDemo/ImportSHP.cs:171-214 | one boundary and one four-vertex ring with no fields give the single point path (0, 0, 0) with four points, and an empty value tree |
| `ImportShp.ClipOf` | LiveComponentDemo/ImportSHP.cs:131-222 | a boundary contributes nothing exactly when it fails the extent test. Otherwise it contributes the geometry-bearing features read through its filter ring, which are no more than the features read |
| `ImportShp.PlanOf` | LiveComponentDemo/ImportSHP.cs:129-229 | a run's plan has one entry per boundary, in input order, and an entry is "skipped" exactly when that boundary fails the extent test |
| `ImportShp.FetchLayers` | LiveComponentDemo/ImportSHP.cs:78-89 | one feature count and one layer per advertised layer, in index order; the first layer that cannot be fetched aborts the run, and only then |
| `ImportShp.FieldNames` | LiveComponentDemo/ImportSHP.cs:232-237 | the field names of the schema, in field order |
| `ImportShp.AppendFieldValues` | LiveComponentDemo/ImportSHP.cs:203-214 | the field loop appends one text per field, in order, to the given branch, and changes nothing else |
| `ImportShp.CollectPart` | LiveComponentDemo/ImportSHP.cs:176-217 | after the vertex loop the trees are those of the plan with the current part complete, and no other point path has changed |
| `ImportShp.CollectFeature` | LiveComponentDemo/ImportSHP.cs:171-218 | after the part loop the trees are those of the plan with the feature and all its parts |
| `ImportShp.CollectBoundary` | LiveComponentDemo/ImportSHP.cs:155-222 | after the feature loop, with m counting only geometry-bearing features, the trees are those of the plan with every geometry-bearing feature of the boundary at its index |
| `ImportShp.SkippedSpec` | LiveComponentDemo/ImportSHP.cs:129-228 | the reference list of skipped boundaries holds exactly the indices of the boundaries that fail the extent test, each once, in increasing order |
| `ImportShp.ClipBoundary` | LiveComponentDemo/ImportSHP.cs:131-228 | one pass of the boundary loop: the trees afterwards describe the plan extended by this boundary's contribution, and the pass reports a skip exactly when the boundary fails the extent test |
| `ImportShp.ClipBoundaries` | LiveComponentDemo/ImportSHP.cs:129-229 | after the boundary loop the trees are exactly those the whole plan describes, and the warnings are the indices of the boundaries outside the extent, once each, in boundary order |
| `ImportShp.SolveInstance` | LiveComponentDemo/ImportSHP.cs:60-247 | the run fails exactly when there is no layer, when an advertised layer cannot be fetched (naming the first one), or when the first layer has no spatial reference. Otherwise it returns the first layer's name, spatial reference and field names, every layer's feature count, the extent rectangle, trees exactly as the whole plan describes, and one warning per boundary outside the extent, in boundary order |

## Left out

- Opening the dataset and registering drivers are not modelled: these are foreign library calls. The run starts from the list of advertised layers, and a path that does not open is not represented.
- The spatial filter and the feature cursor are not modelled. The reader is a parameter that maps the filter ring to the features the layer yields under it, and the model assumes each boundary's filter starts reading from the first feature. The cursor state the library carries between boundaries is not modelled.
- The coordinate transformations are uninterpreted function parameters: the library's reprojection, and the host document's model-to-earth transform and its inverse. An inverse that cannot be computed is not modelled.
- Floating-point rounding and the number-to-text formatting of the filter polygon are not modelled: coordinates are reals, and the ring is a list of points.
- The unused `bbox` polygon and per-point `pT_geo` geometry are not modelled, nor is the Web Mercator helper math, which the component never calls.
- Parameter registration, reading inputs from and writing outputs to the host, the icon and the component id are not modelled: this is host glue. The outputs are the fields of `ImportShp.Output`.
- Releasing each feature after use is not modelled.
- The warning's text is not modelled: the model records the index of each boundary that raised it.
- The branch order of the output trees is not modelled: a tree is a map from path to branch.
- Terminating the host process on a missing layer, and the exceptions raised for an empty layer list or a first layer without a spatial reference, are modelled as a `Failure` result with no output.
- The field loop runs over each feature's own field values. The layer schema is used only for the field names.
- A geometry enters the model as its direct sub-geometries and their points, as the dataset library reports them. The model does not map library geometry types to parts. A Point or LineString feature has no parts, and a MultiPolygon's parts have no points of their own, so such features take an m and write nothing.
- A boundary curve enters the model only through its bounding box. The containment test is the inclusive test of a point against the bounding box of the extent rectangle, which lies at z = 0.
