/** The mesh-to-mesh registrar base class: random subsampling of a mesh's
    points without replacement, its own `mesh_to_image`, and the abstract
    `register`.  The random draws are a nondeterministic choice.  Its
    `resample_template_from_target` moves the template's own points in
    place, where the alignment helper moves a copy's; since the search for
    point `i` reads point `i` before it is overwritten, the points it
    computes are those of `MeshAlign.ResampleTemplate`. */
module MeshSampling {
  import opened Wrappers
  import opened Geometry
  import opened MeshAlign

  /** `register` of the base class: never implemented. */
  function BaseRegister(template: Mesh, target: Mesh): (r: Result<Mesh, string>)
    ensures r.Failure? && r.error == "NotImplementedError"
  {
    Failure("NotImplementedError")
  }

  /** The sample size: the least count not below `rate * n`, that is
      `ceil(rate * n)` for a non-negative rate. */
  predicate EnoughSamples(count: nat, rate: real, n: nat)
  {
    && (count as real) >= rate * (n as real)
    && (count == 0 || ((count - 1) as real) < rate * (n as real))
  }

  /** The indices below `n`. */
  function Below(n: nat): (s: set<nat>)
    ensures forall i: nat :: i in s <==> i < n
  {
    if n == 0 then {} else Below(n - 1) + {n - 1}
  }

  lemma {:induction false} BelowSize(n: nat)
    ensures |Below(n)| == n
  {
    if n > 0 {
      var prev := Below(n - 1);
      BelowSize(n - 1);
      assert n - 1 !in prev;
      assert Below(n) == prev + {n - 1};
    }
  }

  /** Fewer than `n` chosen indices below `n` leave one unchosen. */
  lemma Unchosen(chosen: set<nat>, n: nat)
    requires chosen <= Below(n) && |chosen| < n
    ensures exists i: nat :: i < n && i !in chosen
  {
    BelowSize(n);
    var rest := Below(n) - chosen;
    assert |rest| > 0;
    var i :| i in rest;
  }

  /** `randomly_sample_mesh_points`: a rate above 1 is a `ValueError`;
      otherwise distinct point indices are drawn (`:|` stands for the
      repeated `randrange` until an unused index comes up) until the sample
      holds at least `rate * n` points, each stored at the next free index.
      Returns the sampled points and the indices they came from. */
  method RandomlySample(mesh: Mesh, rate: real) returns (r: Result<seq<Vec3>, string>, picked: seq<nat>)
    ensures r.Failure? <==> rate > 1.0
    ensures r.Success? ==> |r.value| == |picked| && EnoughSamples(|picked|, rate, |mesh.points|)
    ensures r.Success? ==> forall k | 0 <= k < |picked| :: picked[k] < |mesh.points| && r.value[k] == mesh.points[picked[k]]
    ensures forall k, m | 0 <= k < m < |picked| :: picked[k] != picked[m]
  {
    if rate > 1.0 {
      return Failure("ValueError"), [];
    }
    var n := |mesh.points|;
    NotAboveOne(rate, n as real);
    var points;
    points, picked := Draw(mesh, rate * (n as real));
    return Success(points), picked;
  }

  /** The sampling loop, drawing until `wanted` (at most the point count)
      is reached. */
  method Draw(mesh: Mesh, wanted: real) returns (points: seq<Vec3>, picked: seq<nat>)
    requires wanted <= |mesh.points| as real
    ensures |points| == |picked|
    ensures (|points| as real) >= wanted && (|points| == 0 || ((|points| - 1) as real) < wanted)
    ensures forall k | 0 <= k < |picked| :: picked[k] < |mesh.points| && points[k] == mesh.points[picked[k]]
    ensures forall k, m | 0 <= k < m < |picked| :: picked[k] != picked[m]
  {
    var n := |mesh.points|;
    points, picked := [], [];
    var chosen: set<nat> := {};
    while (|points| as real) < wanted
      invariant |points| == |picked| == |chosen| <= n
      invariant forall x :: x in chosen <==> x in picked
      invariant chosen <= Below(n)
      invariant forall k | 0 <= k < |picked| :: picked[k] < n && points[k] == mesh.points[picked[k]]
      invariant forall k, m | 0 <= k < m < |picked| :: picked[k] != picked[m]
      invariant |points| == 0 || ((|points| - 1) as real) < wanted
      decreases n - |points|
    {
      Unchosen(chosen, n);
      var i: nat :| i < n && i !in chosen;
      assert forall k | 0 <= k < |picked| :: picked[k] != i;
      picked := picked + [i];
      points := points + [mesh.points[i]];
      chosen := chosen + {i};
    }
  }

  lemma NotAboveOne(rate: real, n: real)
    requires rate <= 1.0 && n >= 0.0
    ensures rate * n <= n
  {
    MulAtMost(rate, 1.0, n);
  }

  /** The sample is the full mesh's size at rate 1, and empty at rate 0. */
  lemma SampleSizeExtremes(count: nat, n: nat)
    ensures EnoughSamples(count, 1.0, n) <==> count == n
    ensures EnoughSamples(count, 0.0, n) <==> count == 0
  {
  }
  /** The registrar's `mesh_to_image`: as the alignment helper's, except
      that the reference image is looked at before any mesh, so an empty
      list with a reference gives an empty list of images, and only an
      empty list without one raises `IndexError`. */
  function RegistrarMeshToImage<Img>(meshes: Many<Mesh>, reference: Option<ImageGrid>, boxOf: Mesh -> Bounds,
                                     render: (Mesh, ImageGrid) -> Img): (r: Result<Many<Img>, string>)
    ensures r.Failure? <==> reference.None? && Items(meshes) == []
    ensures r.Success? ==> |Items(r.value)| == |Items(meshes)|
    ensures r.Success? && Items(meshes) != [] ==> (r.value.One? <==> |Items(meshes)| == 1)
    ensures r.Success? ==> forall k | 0 <= k < |Items(meshes)| ::
      Items(r.value)[k] == render(Items(meshes)[k], CommonGrid(Items(meshes), reference, boxOf))
  {
    var ms := Items(meshes);
    if reference.None? && ms == [] then Failure("IndexError")
    else if ms == [] then Success(List([]))
    else MeshToImage(meshes, reference, boxOf, render)
  }

  /** The two `mesh_to_image`s agree on every non-empty mesh list; on an
      empty one with a reference the registrar's returns no images where
      the alignment helper's raises. */
  lemma RegistrarMeshToImageDiffers<Img>(meshes: Many<Mesh>, reference: Option<ImageGrid>, boxOf: Mesh -> Bounds,
                                         render: (Mesh, ImageGrid) -> Img)
    ensures Items(meshes) != [] ==>
      RegistrarMeshToImage(meshes, reference, boxOf, render) == MeshToImage(meshes, reference, boxOf, render)
    ensures Items(meshes) == [] && reference.Some? ==>
      && RegistrarMeshToImage(meshes, reference, boxOf, render) == Success(List([]))
      && MeshToImage(meshes, reference, boxOf, render).Failure?
  {
  }
}
