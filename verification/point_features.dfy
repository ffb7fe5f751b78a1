/** The feature matrix of the shape classifier: every `step`-th point of
    each mesh, flattened into one row per mesh, and the signed distance of
    each row along the classifier's direction. */
module PointFeatures {
  import opened Wrappers
  import opened Geometry
  import opened MeshAlign

  /** The point ids kept from a mesh of `n` points: `idx % step == 0`. */
  function KeptIds(n: nat, step: nat): (ids: seq<nat>)
    requires step >= 1
    ensures forall k | 0 <= k < |ids| :: ids[k] < n && ids[k] % step == 0
    ensures forall i: nat | i < n && i % step == 0 :: i in ids
    ensures forall k, m | 0 <= k < m < |ids| :: ids[k] < ids[m]
  {
    if n == 0 then []
    else
      var front := KeptIds(n - 1, step);
      if (n - 1) % step == 0 then front + [n - 1] else front
  }

  /** The kept ids are `0, step, 2 step, ...`, as many as fit below `n`:
      `ceil(n / step)` of them. */
  lemma {:induction false} KeptIdsAreMultiples(n: nat, step: nat)
    requires step >= 1
    ensures var ids := KeptIds(n, step);
      && (forall j | 0 <= j < |ids| :: ids[j] == j * step)
      && (|ids| - 1) * step < n <= |ids| * step
  {
    if n > 0 {
      KeptIdsAreMultiples(n - 1, step);
      var front := KeptIds(n - 1, step);
      var c := |front|;
      if (n - 1) % step == 0 {
        MultipleIsNext(n - 1, step, c);
        var ids := front + [n - 1];
        assert ids == KeptIds(n, step);
        assert forall j | 0 <= j < c :: ids[j] == front[j];
        assert ids[c] == c * step;
        assert (|ids| - 1) * step == n - 1;
        assert |ids| * step == n - 1 + step;
      } else {
        NonMultipleBelow(n - 1, step, c);
        assert KeptIds(n, step) == front;
      }
    }
  }

  /** The only multiple of `step` above `(c - 1) step` and at most
      `c step` is `c step` itself. */
  lemma MultipleIsNext(m: nat, step: nat, c: int)
    requires step >= 1 && m % step == 0 && (c - 1) * step < m <= c * step
    ensures m == c * step
  {
    var q := m / step;
    assert m == q * step;
    MulLessCancel(c - 1, q, step);
    MulLessCancel(q, c + 1, step) by {
      assert (c + 1) * step == c * step + step;
    }
  }

  /** A non-multiple of `step` at most `c step` is below it. */
  lemma NonMultipleBelow(m: nat, step: nat, c: int)
    requires step >= 1 && m % step != 0 && m <= c * step
    ensures m < c * step
  {
    if m == c * step {
      ModMultiple(c, step);
    }
  }

  /** The number of kept ids is `(n + step - 1) / step`. */
  lemma KeptCount(n: nat, step: nat)
    requires step >= 1
    ensures |KeptIds(n, step)| == (n + step - 1) / step
  {
    KeptIdsAreMultiples(n, step);
    var c := |KeptIds(n, step)|;
    assert (c - 1) * step == c * step - step;
    ModUnique(n + step - 1, step, c, n + step - 1 - c * step);
  }

  /** Every point is kept with step 1. */
  lemma StepOneKeepsAll(n: nat)
    ensures KeptIds(n, 1) == seq(n, i requires 0 <= i < n => i)
  {
    KeptIdsAreMultiples(n, 1);
  }

  // ------------------------------------------------- integer arithmetic

  lemma MulAtMostInt(a: int, b: int, s: int)
    requires a <= b && s >= 0
    ensures a * s <= b * s
  {
    assert b * s - a * s == (b - a) * s;
  }

  lemma MulLessCancel(a: int, b: int, s: int)
    requires a * s < b * s && s >= 1
    ensures a < b
  {
    if a >= b {
      MulAtMostInt(b, a, s);
    }
  }

  lemma MulAtLeastOne(d: int, s: int)
    requires d >= 1 && s >= 1
    ensures d * s >= s
  {
    assert d * s == (d - 1) * s + s;
    assert (d - 1) * s >= 0;
  }

  /** Euclidean division is determined by quotient and remainder. */
  lemma ModUnique(a: int, s: int, q: int, r: int)
    requires s >= 1 && 0 <= r < s && a == q * s + r
    ensures a % s == r && a / s == q
  {
    var q', r' := a / s, a % s;
    assert a == q' * s + r';
    var d := q - q';
    assert d * s == r' - r by {
      assert q * s - q' * s == d * s;
    }
    if d >= 1 {
      MulAtLeastOne(d, s);
    } else if d <= -1 {
      MulAtLeastOne(-d, s);
    }
  }

  lemma ModMultiple(j: int, step: int)
    requires step >= 1
    ensures (j * step) % step == 0
  {
    ModUnique(j * step, step, j, 0);
  }

  /** `np.asarray(points).flatten()`: x, y, z of each point in turn. */
  function Flatten(ps: seq<Vec3>): (row: seq<real>)
    ensures |row| == 3 * |ps|
    ensures forall m | 0 <= m < |ps| :: row[3 * m] == ps[m].x && row[3 * m + 1] == ps[m].y && row[3 * m + 2] == ps[m].z
  {
    if ps == [] then []
    else
      var rest := Flatten(ps[1..]);
      assert forall m | 1 <= m < |ps| :: ps[m] == ps[1..][m - 1];
      [ps[0].x, ps[0].y, ps[0].z] + rest
  }

  /** One mesh's row: its kept points, flattened. */
  function Row(mesh: Mesh, step: nat): (row: seq<real>)
    requires step >= 1
    ensures |row| == 3 * |KeptIds(|mesh.points|, step)|
  {
    var ids := KeptIds(|mesh.points|, step);
    Flatten(seq(|ids|, k requires 0 <= k < |ids| => mesh.points[ids[k]]))
  }

  /** `make_point_features`: a step below 1 is an `AssertionError`; no mesh
      leaves the features `None`; rows of differing length cannot be
      stacked by `np.append` (`ValueError`); otherwise one row per mesh, in
      order. */
  function MakePointFeatures(meshes: seq<Mesh>, step: int): (r: Result<Option<seq<seq<real>>>, string>)
    ensures r.Failure? <==> step < 1 || (meshes != [] && !SameKeptCount(meshes, step))
    ensures r.Success? ==> (r.value.None? <==> meshes == [])
    ensures r.Success? && r.value.Some? ==>
      && |r.value.value| == |meshes|
      && forall k | 0 <= k < |meshes| :: r.value.value[k] == Row(meshes[k], step)
  {
    if step < 1 then Failure("AssertionError")
    else if meshes == [] then Success(None)
    else
      if !SameKeptCount(meshes, step) then Failure("ValueError")
      else Success(Some(seq(|meshes|, k requires 0 <= k < |meshes| => Row(meshes[k], step))))
  }

  /** Every mesh keeps as many points as the first, so the rows stack. */
  predicate SameKeptCount(meshes: seq<Mesh>, step: nat)
    requires meshes != [] && step >= 1
  {
    forall k | 0 <= k < |meshes| :: |KeptIds(|meshes[k].points|, step)| == |KeptIds(|meshes[0].points|, step)|
  }

  /** `row . direction`, numpy's inner product of equal-length vectors. */
  function InnerProduct(a: seq<real>, b: seq<real>): real
    requires |a| == |b|
  {
    if a == [] then 0.0 else a[0] * b[0] + InnerProduct(a[1..], b[1..])
  }

  /** `get_distances`: each row's inner product with the direction plus the
      intercept; a row of another length than the direction is a
      `ValueError`. */
  function GetDistances(features: seq<seq<real>>, direction: seq<real>, intercept: real): (r: Result<seq<real>, string>)
    ensures r.Failure? <==> exists k | 0 <= k < |features| :: |features[k]| != |direction|
    ensures r.Success? ==>
      && |r.value| == |features|
      && forall k | 0 <= k < |features| :: r.value[k] == InnerProduct(features[k], direction) + intercept
  {
    if exists k | 0 <= k < |features| :: |features[k]| != |direction| then Failure("ValueError")
    else Success(seq(|features|, k requires 0 <= k < |features| => InnerProduct(features[k], direction) + intercept))
  }

  /** The direction's three weights for point `m` of a row. */
  function Block(direction: seq<real>, m: nat): Vec3
    requires 3 * m + 2 < |direction|
  {
    Vec3(direction[3 * m], direction[3 * m + 1], direction[3 * m + 2])
  }

  /** The sum over points of each point's projection on its block. */
  function Projections(ps: seq<Vec3>, direction: seq<real>): real
    requires |direction| == 3 * |ps|
  {
    if ps == [] then 0.0 else Dot(ps[0], Block(direction, 0)) + Projections(ps[1..], direction[3..])
  }

  /** A mesh's distance is the sum of its kept points' projections on their
      blocks of the direction, plus the intercept: the features and the
      classifier agree point by point. */
  lemma {:induction false} DistanceIsProjection(ps: seq<Vec3>, direction: seq<real>)
    requires |direction| == 3 * |ps|
    ensures InnerProduct(Flatten(ps), direction) == Projections(ps, direction)
  {
    if ps != [] {
      DistanceIsProjection(ps[1..], direction[3..]);
      var row := Flatten(ps);
      assert row == [ps[0].x, ps[0].y, ps[0].z] + Flatten(ps[1..]);
      assert row[3..] == Flatten(ps[1..]);
      assert InnerProduct(row, direction)
          == row[0] * direction[0] + InnerProduct(row[1..], direction[1..]);
      assert InnerProduct(row[1..], direction[1..])
          == row[1] * direction[1] + InnerProduct(row[2..], direction[2..]) by {
        assert row[1..][1..] == row[2..] && direction[1..][1..] == direction[2..];
      }
      assert InnerProduct(row[2..], direction[2..])
          == row[2] * direction[2] + InnerProduct(row[3..], direction[3..]) by {
        assert row[2..][1..] == row[3..] && direction[2..][1..] == direction[3..];
      }
    }
  }
}
