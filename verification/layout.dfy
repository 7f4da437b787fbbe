/**
 * The addressing scheme of the two output trees, stated independently of
 * the loops that build them.
 *
 * A Plan records, per boundary in input order, either None (the boundary
 * was skipped) or the geometry-bearing features the reader yielded for it,
 * in reader order: the position of a feature in that list is its feature
 * index m.  Describes(points, values, plan) says which paths the two trees
 * hold and what each branch contains:
 *   - point path (i, m, gi) exists exactly when part gi of feature m of
 *     boundary i has a vertex, and holds that part's vertices in model space;
 *   - value path (i, m) exists exactly when feature m of boundary i has a
 *     vertex and at least one field, and holds one copy of its field texts.
 */
module Layout {
  import opened Wrappers
  import opened Geometry
  import opened Dataset
  import opened DataTree

  type PointPath = (nat, nat, nat)

  type ValuePath = (nat, nat)

  /** A geometry-bearing feature: its sub-geometries and its field values. */
  datatype Record = Record(parts: seq<seq<Point3>>, fields: seq<FieldValue>)

  type Plan = seq<Option<seq<Record>>>

  function RecordOf(f: Feature): Record
    requires f.geometry.Some?
  {
    Record(f.geometry.value, f.fields)
  }

  /** The features of a reader sequence that have a geometry, in reader order. */
  function Indexed(feats: seq<Feature>): (recs: seq<Record>)
    ensures |recs| <= |feats|
    decreases |feats|
  {
    if |feats| == 0 then []
    else
      var last := feats[|feats| - 1];
      Indexed(feats[..|feats| - 1]) + (if last.geometry.Some? then [RecordOf(last)] else [])
  }

  /** Reading one more feature adds it to the indexed list exactly when it has a geometry. */
  lemma IndexedGrows(feats: seq<Feature>, j: nat)
    requires j < |feats|
    ensures Indexed(feats[..j + 1]) == Indexed(feats[..j]) + (if feats[j].geometry.Some? then [RecordOf(feats[j])] else [])
  {
    assert feats[..j + 1][..j] == feats[..j];
  }

  /** The indexed list only grows as the reader advances. */
  lemma {:induction false} IndexedPrefix(feats: seq<Feature>, j: nat, j': nat)
    requires j <= j' <= |feats|
    ensures Indexed(feats[..j]) <= Indexed(feats[..j'])
    decreases j' - j
  {
    if j < j' {
      IndexedPrefix(feats, j, j' - 1);
      IndexedGrows(feats, j' - 1);
    }
  }

  /**
   * The feature index of the j-th feature read: the number of
   * geometry-bearing features read before it.  A feature with a geometry
   * gets an index below the count of geometry-bearing features, and the
   * indexed list holds that very feature there.
   */
  lemma FeatureIndex(feats: seq<Feature>, j: nat)
    requires j < |feats| && feats[j].geometry.Some?
    ensures |Indexed(feats[..j])| < |Indexed(feats)|
    ensures Indexed(feats)[|Indexed(feats[..j])|] == RecordOf(feats[j])
  {
    IndexedGrows(feats, j);
    IndexedPrefix(feats, j + 1, |feats|);
    assert feats[..|feats|] == feats;
  }

  /** Geometry-bearing features get strictly increasing feature indices, so no index is used twice. */
  lemma FeatureIndexIncreasing(feats: seq<Feature>, j1: nat, j2: nat)
    requires j1 < j2 <= |feats| && feats[j1].geometry.Some?
    ensures |Indexed(feats[..j1])| < |Indexed(feats[..j2])|
  {
    IndexedGrows(feats, j1);
    IndexedPrefix(feats, j1 + 1, j2);
  }

  /** Every index below the count of geometry-bearing features is the index of one of them: the indices are 0..k-1. */
  lemma {:induction false} EveryFeatureIndexUsed(feats: seq<Feature>, m: nat)
    requires m < |Indexed(feats)|
    ensures exists j :: 0 <= j < |feats| && feats[j].geometry.Some? && |Indexed(feats[..j])| == m
  {
    var n := |feats| - 1;
    IndexedGrows(feats, n);
    assert feats[..n + 1] == feats;
    if m < |Indexed(feats[..n])| {
      EveryFeatureIndexUsed(feats[..n], m);
      var j :| 0 <= j < n && feats[..n][j].geometry.Some? && |Indexed(feats[..n][..j])| == m;
      assert feats[..n][..j] == feats[..j];
    } else {
      assert feats[n].geometry.Some? && |Indexed(feats[..n])| == m;
    }
  }

  /** Some sub-geometry has a vertex. */
  predicate HasVertex(parts: seq<seq<Point3>>) {
    exists gi :: 0 <= gi < |parts| && |parts[gi]| > 0
  }

  ghost predicate IsPointPath(plan: Plan, k: PointPath) {
    && k.0 < |plan| && plan[k.0].Some?
    && k.1 < |plan[k.0].value|
    && k.2 < |plan[k.0].value[k.1].parts|
    && |plan[k.0].value[k.1].parts[k.2]| > 0
  }

  ghost function PartAt(plan: Plan, k: PointPath): seq<Point3>
    requires IsPointPath(plan, k)
  {
    plan[k.0].value[k.1].parts[k.2]
  }

  ghost predicate IsValuePath(plan: Plan, k: ValuePath) {
    && k.0 < |plan| && plan[k.0].Some?
    && k.1 < |plan[k.0].value|
    && HasVertex(plan[k.0].value[k.1].parts)
    && |plan[k.0].value[k.1].fields| > 0
  }

  ghost function FieldsAt(plan: Plan, k: ValuePath): seq<FieldValue>
    requires IsValuePath(plan, k)
  {
    plan[k.0].value[k.1].fields
  }

  /** The vertices of a part taken to model space, in vertex order. */
  function LocalAll(xf: Transforms, pts: seq<Point3>): seq<Point3> {
    seq(|pts|, n requires 0 <= n < |pts| => ToLocal(xf, pts[n]))
  }

  /** The point tree and the value tree are exactly the ones the plan calls for. */
  ghost predicate Describes(points: Tree<PointPath, Point3>, values: Tree<ValuePath, string>, plan: Plan, xf: Transforms) {
    && (forall k :: k in points ==> IsPointPath(plan, k) && points[k] == LocalAll(xf, PartAt(plan, k)))
    && (forall k :: IsPointPath(plan, k) ==> k in points)
    && (forall k :: k in values ==> IsValuePath(plan, k) && values[k] == Render(FieldsAt(plan, k)))
    && (forall k :: IsValuePath(plan, k) ==> k in values)
  }

  /** Two plans that call for the same paths with the same contents are described by the same trees. */
  lemma Transfer(points: Tree<PointPath, Point3>, values: Tree<ValuePath, string>, plan: Plan, plan': Plan, xf: Transforms)
    requires Describes(points, values, plan, xf)
    requires forall k :: IsPointPath(plan', k) <==> IsPointPath(plan, k)
    requires forall k :: IsPointPath(plan, k) ==> PartAt(plan', k) == PartAt(plan, k)
    requires forall k :: IsValuePath(plan', k) <==> IsValuePath(plan, k)
    requires forall k :: IsValuePath(plan, k) ==> FieldsAt(plan', k) == FieldsAt(plan, k)
    ensures Describes(points, values, plan', xf)
  {
  }

  /** Trees that describe a prefix of a plan followed by its next entry describe the longer prefix. */
  lemma PrefixStep(points: Tree<PointPath, Point3>, values: Tree<ValuePath, string>, plan: Plan, i: nat, xf: Transforms)
    requires i < |plan|
    requires Describes(points, values, plan[..i] + [plan[i]], xf)
    ensures Describes(points, values, plan[..i + 1], xf)
  {
    assert plan[..i] + [plan[i]] == plan[..i + 1];
  }

  /** Starting a boundary, skipped or with no feature read yet, calls for no new path. */
  lemma OpenBoundary(points: Tree<PointPath, Point3>, values: Tree<ValuePath, string>, plan: Plan, xf: Transforms, clip: Option<seq<Record>>)
    requires Describes(points, values, plan, xf)
    requires clip == None || clip == Some([])
    ensures Describes(points, values, plan + [clip], xf)
  {
    var plan' := plan + [clip];
    forall k: PointPath ensures IsPointPath(plan', k) <==> IsPointPath(plan, k) {
      if k.0 < |plan| {
        assert plan'[k.0] == plan[k.0];
      }
    }
    forall k: ValuePath ensures IsValuePath(plan', k) <==> IsValuePath(plan, k) {
      if k.0 < |plan| {
        assert plan'[k.0] == plan[k.0];
      }
    }
    Transfer(points, values, plan, plan', xf);
  }

  /** Starting a feature, before any of its sub-geometries, calls for no new path. */
  lemma AddRecord(points: Tree<PointPath, Point3>, values: Tree<ValuePath, string>, base: Plan, rs: seq<Record>, f: seq<FieldValue>, xf: Transforms)
    requires Describes(points, values, base + [Some(rs)], xf)
    ensures Describes(points, values, base + [Some(rs + [Record([], f)])], xf)
  {
    var plan := base + [Some(rs)];
    var plan' := base + [Some(rs + [Record([], f)])];
    forall k: PointPath ensures IsPointPath(plan', k) <==> IsPointPath(plan, k) {
      if k.0 < |base| {
        assert plan'[k.0] == plan[k.0];
      } else if k.0 == |base| && k.1 < |rs| {
        assert plan'[k.0].value[k.1] == plan[k.0].value[k.1];
      }
    }
    forall k: ValuePath ensures IsValuePath(plan', k) <==> IsValuePath(plan, k) {
      if k.0 < |base| {
        assert plan'[k.0] == plan[k.0];
      } else if k.0 == |base| && k.1 < |rs| {
        assert plan'[k.0].value[k.1] == plan[k.0].value[k.1];
      }
    }
    Transfer(points, values, plan, plan', xf);
  }

  /** Starting a sub-geometry, before any of its vertices, calls for no new path. */
  lemma AddPart(points: Tree<PointPath, Point3>, values: Tree<ValuePath, string>, base: Plan, rs: seq<Record>, q: seq<seq<Point3>>, f: seq<FieldValue>, xf: Transforms)
    requires Describes(points, values, base + [Some(rs + [Record(q, f)])], xf)
    ensures Describes(points, values, base + [Some(rs + [Record(q + [[]], f)])], xf)
  {
    var plan := base + [Some(rs + [Record(q, f)])];
    var plan' := base + [Some(rs + [Record(q + [[]], f)])];
    assert HasVertex(q + [[]]) <==> HasVertex(q) by {
      if HasVertex(q + [[]]) {
        var gi :| 0 <= gi < |q + [[]]| && |(q + [[]])[gi]| > 0;
        assert gi < |q| && q[gi] == (q + [[]])[gi];
      }
      if HasVertex(q) {
        var gi :| 0 <= gi < |q| && |q[gi]| > 0;
        assert (q + [[]])[gi] == q[gi];
      }
    }
    forall k: PointPath ensures IsPointPath(plan', k) <==> IsPointPath(plan, k)
      ensures IsPointPath(plan, k) ==> PartAt(plan', k) == PartAt(plan, k)
    {
      if k.0 < |base| {
        assert plan'[k.0] == plan[k.0];
      } else if k.0 == |base| && k.1 < |rs| {
        assert plan'[k.0].value[k.1] == plan[k.0].value[k.1];
      } else if k.0 == |base| && k.1 == |rs| && k.2 < |q| {
        assert plan'[k.0].value[k.1].parts[k.2] == plan[k.0].value[k.1].parts[k.2];
      }
    }
    forall k: ValuePath ensures IsValuePath(plan', k) <==> IsValuePath(plan, k) {
      if k.0 < |base| {
        assert plan'[k.0] == plan[k.0];
      } else if k.0 == |base| && k.1 < |rs| {
        assert plan'[k.0].value[k.1] == plan[k.0].value[k.1];
      }
    }
    Transfer(points, values, plan, plan', xf);
  }

  lemma LocalAllAppend(xf: Transforms, a: seq<Point3>, p: Point3)
    ensures LocalAll(xf, a + [p]) == LocalAll(xf, a) + [ToLocal(xf, p)]
  {
  }

  /**
   * The plan with one more vertex in the current part calls for the same
   * paths as before, with the same contents, except point path
   * (i, m, gi) and value path (i, m) of the current part and feature.
   */
  lemma VertexPaths(base: Plan, rs: seq<Record>, q: seq<seq<Point3>>, a: seq<Point3>, f: seq<FieldValue>, pt: Point3)
    ensures var plan := base + [Some(rs + [Record(q + [a], f)])];
      var plan' := base + [Some(rs + [Record(q + [a + [pt]], f)])];
      var key: PointPath := (|base|, |rs|, |q|);
      var vkey: ValuePath := (|base|, |rs|);
      && IsPointPath(plan', key) && PartAt(plan', key) == a + [pt]
      && (IsPointPath(plan, key) <==> |a| > 0)
      && (IsPointPath(plan, key) ==> PartAt(plan, key) == a)
      && (IsValuePath(plan', vkey) <==> |f| > 0)
      && (IsValuePath(plan', vkey) ==> FieldsAt(plan', vkey) == f)
      && (IsValuePath(plan, vkey) ==> |f| > 0)
      && (forall k :: k != key ==> (IsPointPath(plan', k) <==> IsPointPath(plan, k)))
      && (forall k :: k != key && IsPointPath(plan, k) ==> PartAt(plan', k) == PartAt(plan, k))
      && (forall k :: k != vkey ==> (IsValuePath(plan', k) <==> IsValuePath(plan, k)))
      && (forall k :: k != vkey && IsValuePath(plan, k) ==> FieldsAt(plan', k) == FieldsAt(plan, k))
  {
    var plan := base + [Some(rs + [Record(q + [a], f)])];
    var plan' := base + [Some(rs + [Record(q + [a + [pt]], f)])];
    var key: PointPath := (|base|, |rs|, |q|);
    var vkey: ValuePath := (|base|, |rs|);
    assert plan'[|base|].value[|rs|] == Record(q + [a + [pt]], f);
    assert plan[|base|].value[|rs|] == Record(q + [a], f);
    assert HasVertex(q + [a + [pt]]) by {
      assert |(q + [a + [pt]])[|q|]| > 0;
    }
    forall k: PointPath | k != key
      ensures IsPointPath(plan', k) <==> IsPointPath(plan, k)
      ensures IsPointPath(plan, k) ==> PartAt(plan', k) == PartAt(plan, k)
    {
      if k.0 < |base| {
        assert plan'[k.0] == plan[k.0];
      } else if k.0 == |base| && k.1 < |rs| {
        assert plan'[k.0].value[k.1] == plan[k.0].value[k.1];
      } else if k.0 == |base| && k.1 == |rs| && k.2 < |q| {
        assert plan'[k.0].value[k.1].parts[k.2] == plan[k.0].value[k.1].parts[k.2];
      }
    }
    forall k: ValuePath | k != vkey
      ensures IsValuePath(plan', k) <==> IsValuePath(plan, k)
      ensures IsValuePath(plan, k) ==> FieldsAt(plan', k) == FieldsAt(plan, k)
    {
      if k.0 < |base| {
        assert plan'[k.0] == plan[k.0];
      } else if k.0 == |base| && k.1 < |rs| {
        assert plan'[k.0].value[k.1] == plan[k.0].value[k.1];
      }
    }
  }

  /**
   * One vertex step: appending the vertex (in model space) to point path
   * (i, m, gi) and refilling value path (i, m) with the feature's field
   * texts yields the trees of the plan in which the current part holds one
   * more vertex.
   */
  lemma AddVertex(points: Tree<PointPath, Point3>, values: Tree<ValuePath, string>, base: Plan, rs: seq<Record>,
                  q: seq<seq<Point3>>, a: seq<Point3>, f: seq<FieldValue>, xf: Transforms, pt: Point3)
    requires Describes(points, values, base + [Some(rs + [Record(q + [a], f)])], xf)
    ensures Describes(Append(points, (|base|, |rs|, |q|), ToLocal(xf, pt)),
                      Refill(values, (|base|, |rs|), Render(f)),
                      base + [Some(rs + [Record(q + [a + [pt]], f)])], xf)
  {
    var plan := base + [Some(rs + [Record(q + [a], f)])];
    var plan' := base + [Some(rs + [Record(q + [a + [pt]], f)])];
    var key: PointPath := (|base|, |rs|, |q|);
    var vkey: ValuePath := (|base|, |rs|);
    var points' := Append(points, key, ToLocal(xf, pt));
    var values' := Refill(values, vkey, Render(f));
    VertexPaths(base, rs, q, a, f, pt);
    RefillTwice(values, vkey, Render(f));
    LocalAllAppend(xf, a, pt);
    assert Branch(points, key) == LocalAll(xf, a) by {
      if |a| == 0 {
        assert key !in points;
      }
    }
    assert points'[key] == LocalAll(xf, PartAt(plan', key));
    forall k | k in points'
      ensures IsPointPath(plan', k) && points'[k] == LocalAll(xf, PartAt(plan', k))
    {
      if k != key {
        assert k in points;
      }
    }
    forall k | k in values'
      ensures IsValuePath(plan', k) && values'[k] == Render(FieldsAt(plan', k))
    {
      if k != vkey {
        assert k in values;
      }
    }
  }

  /** AddVertex, for the vertex at position n of the current part pts, with the trees after the step given as points' and values'. */
  lemma AddVertexAt(points: Tree<PointPath, Point3>, values: Tree<ValuePath, string>,
                    points': Tree<PointPath, Point3>, values': Tree<ValuePath, string>,
                    base: Plan, rs: seq<Record>, q: seq<seq<Point3>>, pts: seq<Point3>, n: nat, f: seq<FieldValue>, xf: Transforms)
    requires n < |pts|
    requires Describes(points, values, base + [Some(rs + [Record(q + [pts[..n]], f)])], xf)
    requires points' == Append(points, (|base|, |rs|, |q|), ToLocal(xf, pts[n]))
    requires values' == Refill(values, (|base|, |rs|), Render(f))
    ensures Describes(points', values', base + [Some(rs + [Record(q + [pts[..n + 1]], f)])], xf)
  {
    AddVertex(points, values, base, rs, q, pts[..n], f, xf, pts[n]);
    assert pts[..n] + [pts[n]] == pts[..n + 1];
    assert base + [Some(rs + [Record(q + [pts[..n] + [pts[n]]], f)])]
        == base + [Some(rs + [Record(q + [pts[..n + 1]], f)])];
  }

  /** A skipped boundary has no path in either tree. */
  lemma SkippedBoundaryIsEmpty(points: Tree<PointPath, Point3>, values: Tree<ValuePath, string>, plan: Plan, xf: Transforms, i: nat)
    requires Describes(points, values, plan, xf)
    requires i < |plan| && plan[i].None?
    ensures forall k :: k in points ==> k.0 != i
    ensures forall k :: k in values ==> k.0 != i
  {
  }

  /**
   * Point path (i, m, gi) exists exactly when part gi of the m-th
   * geometry-bearing feature of boundary i has a vertex, and then holds as
   * many points as the part, each the part's vertex at the same position,
   * taken to model space.
   */
  lemma PointBranch(points: Tree<PointPath, Point3>, values: Tree<ValuePath, string>, plan: Plan, xf: Transforms, i: nat, m: nat, gi: nat)
    requires Describes(points, values, plan, xf)
    requires i < |plan| && plan[i].Some? && m < |plan[i].value| && gi < |plan[i].value[m].parts|
    ensures var part := plan[i].value[m].parts[gi];
      && ((i, m, gi) in points <==> |part| > 0)
      && ((i, m, gi) in points ==>
            && |points[(i, m, gi)]| == |part|
            && forall n :: 0 <= n < |part| ==> points[(i, m, gi)][n] == ToLocal(xf, part[n]))
  {
    assert IsPointPath(plan, (i, m, gi)) <==> |plan[i].value[m].parts[gi]| > 0;
  }

  /**
   * Value path (i, m) exists exactly when the feature has a vertex and a
   * field, and then holds one copy of its field values in field order: the
   * text of a set field, "null" for an unset one.
   */
  lemma ValueBranch(points: Tree<PointPath, Point3>, values: Tree<ValuePath, string>, plan: Plan, xf: Transforms, i: nat, m: nat)
    requires Describes(points, values, plan, xf)
    requires i < |plan| && plan[i].Some? && m < |plan[i].value|
    ensures var r := plan[i].value[m];
      && ((i, m) in values <==> HasVertex(r.parts) && |r.fields| > 0)
      && ((i, m) in values ==>
            && |values[(i, m)]| == |r.fields|
            && forall n :: 0 <= n < |r.fields| ==>
                 values[(i, m)][n] == (if r.fields[n].Set? then r.fields[n].text else "null"))
  {
    assert IsValuePath(plan, (i, m)) <==> HasVertex(plan[i].value[m].parts) && |plan[i].value[m].fields| > 0;
  }

  /**
   * The two trees share their (boundary, feature) prefixes: a point path's
   * prefix is a value path whenever the feature has a field, and every value
   * path is the prefix of some point path.
   */
  lemma PrefixesMatch(points: Tree<PointPath, Point3>, values: Tree<ValuePath, string>, plan: Plan, xf: Transforms)
    requires Describes(points, values, plan, xf)
    ensures forall k :: k in points ==> ((k.0, k.1) in values <==> |plan[k.0].value[k.1].fields| > 0)
    ensures forall k :: k in values ==> exists gi: nat :: (k.0, k.1, gi) in points
  {
    forall k | k in points
      ensures (k.0, k.1) in values <==> |plan[k.0].value[k.1].fields| > 0
    {
      assert HasVertex(plan[k.0].value[k.1].parts);
    }
    forall k | k in values
      ensures exists gi: nat :: (k.0, k.1, gi) in points
    {
      var gi :| 0 <= gi < |plan[k.0].value[k.1].parts| && |plan[k.0].value[k.1].parts[gi]| > 0;
      assert IsPointPath(plan, (k.0, k.1, gi));
    }
  }

  /**
   * One boundary, one feature with a single four-vertex ring and no fields:
   * the point tree has the single path (0, 0, 0) holding four points, and
   * the value tree is empty.
   */
  lemma SingleRingScenario(points: Tree<PointPath, Point3>, values: Tree<ValuePath, string>, ring: seq<Point3>, xf: Transforms)
    requires |ring| == 4
    requires Describes(points, values, [Some([Record([ring], [])])], xf)
    ensures points.Keys == {(0, 0, 0)} && |points[(0, 0, 0)]| == 4
    ensures values == map[]
  {
    var plan: Plan := [Some([Record([ring], [])])];
    assert IsPointPath(plan, (0, 0, 0));
    forall k | k in points ensures k == (0, 0, 0) {
      assert IsPointPath(plan, k);
    }
  }
}
