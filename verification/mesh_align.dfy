/** The mesh and image helpers of the shape-analysis package: rasterising
    meshes on a common grid, resampling a template onto a target's points,
    pasting images into a common extent, downsampling, the correspondence
    precondition of the Procrustes mean and the Hausdorff distance between
    corresponding points.  ITK filters (rasterisation, signed distance,
    resampling, Procrustes alignment) are function parameters. */
module MeshAlign {
  import opened Wrappers
  import opened Geometry
  import opened Grid

  /** Vertices in point-id order, and the cells (shared, never inspected). */
  datatype Mesh = Mesh(points: seq<Vec3>, cells: seq<seq<nat>>)

  // ------------------------------------------------------------ bounds

  /** An axis-aligned box, `[x_min x_max y_min y_max z_min z_max]`. */
  datatype Bounds = Bounds(lo: Vec3, hi: Vec3)

  function Min(a: real, b: real): real { if a <= b then a else b }
  function Max(a: real, b: real): real { if a >= b then a else b }

  /** One step of the bounds loop: per axis the smaller minimum and the
      larger maximum. */
  function Widen(a: Bounds, b: Bounds): Bounds
  {
    Bounds(Vec3(Min(a.lo.x, b.lo.x), Min(a.lo.y, b.lo.y), Min(a.lo.z, b.lo.z)),
           Vec3(Max(a.hi.x, b.hi.x), Max(a.hi.y, b.hi.y), Max(a.hi.z, b.hi.z)))
  }

  /** The box contains box `b` on every axis. */
  predicate Encloses(u: Bounds, b: Bounds)
  {
    forall d | 0 <= d < 3 :: Coord(u.lo, d) <= Coord(b.lo, d) && Coord(b.hi, d) <= Coord(u.hi, d)
  }

  /** Every face of `u` is a face of one of the boxes `acc` or `rest`. */
  predicate Attained(u: Bounds, acc: Bounds, rest: seq<Bounds>)
  {
    forall d | 0 <= d < 3 ::
      && (Coord(u.lo, d) == Coord(acc.lo, d) || exists k | 0 <= k < |rest| :: Coord(u.lo, d) == Coord(rest[k].lo, d))
      && (Coord(u.hi, d) == Coord(acc.hi, d) || exists k | 0 <= k < |rest| :: Coord(u.hi, d) == Coord(rest[k].hi, d))
  }

  /** The loop over `meshes[1:]`, starting from the first mesh's bounds. */
  function WidenAll(acc: Bounds, rest: seq<Bounds>): (u: Bounds)
    ensures Encloses(u, acc) && forall k | 0 <= k < |rest| :: Encloses(u, rest[k])
    ensures Attained(u, acc, rest)
    decreases |rest|
  {
    if rest == [] then acc
    else
      var u := WidenAll(Widen(acc, rest[0]), rest[1..]);
      assert forall k | 1 <= k < |rest| :: rest[k] == rest[1..][k - 1];
      u
  }

  /** The bounds of all meshes: the smallest box enclosing every mesh's box
      (each face is some mesh's face).  No mesh is an `IndexError`. */
  function BoundsUnion(boxes: seq<Bounds>): (r: Result<Bounds, string>)
    ensures r.Failure? <==> boxes == []
    ensures r.Success? ==> forall k | 0 <= k < |boxes| :: Encloses(r.value, boxes[k])
    ensures r.Success? ==> forall d | 0 <= d < 3 ::
      && (exists k | 0 <= k < |boxes| :: Coord(r.value.lo, d) == Coord(boxes[k].lo, d))
      && (exists k | 0 <= k < |boxes| :: Coord(r.value.hi, d) == Coord(boxes[k].hi, d))
  {
    if boxes == [] then Failure("IndexError")
    else
      var u := WidenAll(boxes[0], boxes[1..]);
      assert forall k | 1 <= k < |boxes| :: boxes[k] == boxes[1..][k - 1];
      Success(u)
  }

  // -------------------------------------------------------------- grids

  /** An image grid: origin, spacing, size and direction. */
  datatype ImageGrid = ImageGrid(origin: Vec3, spacing: Vec3, size: Idx, direction: Mat3)

  const GridVoxels: int := 100
  const GridSteps: real := 90.0
  const GridMargin: real := 5.0

  /** The grid derived from the bounds when no reference image is given:
      100 voxels per axis, the extent spread over 90 of them and a margin of
      5 voxels before the minimum. */
  function GridFromBounds(b: Bounds): (g: ImageGrid)
    ensures g.size == Idx(GridVoxels, GridVoxels, GridVoxels) && g.direction == Identity
    ensures forall d | 0 <= d < 3 ::
      && Coord(g.spacing, d) == (Coord(b.hi, d) - Coord(b.lo, d)) / GridSteps
      && Coord(g.origin, d) + GridMargin * Coord(g.spacing, d) == Coord(b.lo, d)
      && Coord(g.origin, d) + (GridMargin + GridSteps) * Coord(g.spacing, d) == Coord(b.hi, d)
  {
    var spacing := Vec3((b.hi.x - b.lo.x) / GridSteps, (b.hi.y - b.lo.y) / GridSteps, (b.hi.z - b.lo.z) / GridSteps);
    var origin := Vec3(b.lo.x - GridMargin * spacing.x, b.lo.y - GridMargin * spacing.y, b.lo.z - GridMargin * spacing.z);
    ImageGrid(origin, spacing, Idx(GridVoxels, GridVoxels, GridVoxels), Identity)
  }

  /** The grid's physical point of an index, along the axes. */
  function PointAt(g: ImageGrid, d: nat, k: int): real
    requires d < 3
  {
    Coord(g.origin, d) + (k as real) * Coord(g.spacing, d)
  }

  /** The derived grid keeps a margin: the union's minimum sits on voxel 5,
      its maximum on voxel 95, both inside the 100 voxels. */
  lemma GridFromBoundsMargin(b: Bounds, d: nat)
    requires d < 3
    ensures PointAt(GridFromBounds(b), d, 5) == Coord(b.lo, d)
    ensures PointAt(GridFromBounds(b), d, 95) == Coord(b.hi, d)
    ensures 0 <= 5 < 95 < GridVoxels
  {
  }

  /** A single mesh or a list of meshes, and likewise for images. */
  datatype Many<T> = One(item: T) | List(items: seq<T>)

  function Items<T>(m: Many<T>): seq<T>
  {
    match m
    case One(x) => [x]
    case List(xs) => xs
  }

  /** The bounding boxes of the meshes, in order. */
  function BoxesOf(ms: seq<Mesh>, boxOf: Mesh -> Bounds): (bs: seq<Bounds>)
    ensures |bs| == |ms| && forall k | 0 <= k < |ms| :: bs[k] == boxOf(ms[k])
  {
    seq(|ms|, k requires 0 <= k < |ms| => boxOf(ms[k]))
  }

  /** The grid every mesh is rasterised on. */
  function CommonGrid(ms: seq<Mesh>, reference: Option<ImageGrid>, boxOf: Mesh -> Bounds): ImageGrid
    requires reference.Some? || ms != []
  {
    if reference.Some? then reference.value else GridFromBounds(BoundsUnion(BoxesOf(ms, boxOf)).value)
  }

  /** `mesh_to_image`: every mesh rasterised (and distance-mapped, inside
      `render`) on one grid, the reference image's or the one derived from
      the union of the meshes' bounds.  One image comes back bare, any other
      number as a list.  An empty list is an `IndexError`, with or without
      a reference, since the mesh type is read from the first mesh before
      the reference is looked at. */
  function MeshToImage<Img>(meshes: Many<Mesh>, reference: Option<ImageGrid>, boxOf: Mesh -> Bounds,
                            render: (Mesh, ImageGrid) -> Img): (r: Result<Many<Img>, string>)
    ensures r.Failure? <==> Items(meshes) == []
    ensures r.Success? ==> |Items(r.value)| == |Items(meshes)|
    ensures r.Success? ==> (r.value.One? <==> |Items(meshes)| == 1)
    ensures r.Success? ==> forall k | 0 <= k < |Items(meshes)| ::
      Items(r.value)[k] == render(Items(meshes)[k], CommonGrid(Items(meshes), reference, boxOf))
  {
    var ms := Items(meshes);
    if ms == [] then Failure("IndexError")
    else
      var g := CommonGrid(ms, reference, boxOf);
      var images := seq(|ms|, k requires 0 <= k < |ms| => render(ms[k], g));
      Success(if |images| == 1 then One(images[0]) else List(images))
  }

  /** Without a reference, the common grid is derived from a box enclosing
      every mesh's box, so every mesh lies between voxels 5 and 95. */
  lemma DerivedGridEnclosesMeshes(ms: seq<Mesh>, boxOf: Mesh -> Bounds, k: nat, d: nat)
    requires k < |ms| && d < 3
    ensures var g := CommonGrid(ms, None, boxOf);
      PointAt(g, d, 5) <= Coord(boxOf(ms[k]).lo, d) && Coord(boxOf(ms[k]).hi, d) <= PointAt(g, d, 95)
  {
    var u := BoundsUnion(BoxesOf(ms, boxOf)).value;
    assert Encloses(u, BoxesOf(ms, boxOf)[k]);
    GridFromBoundsMargin(u, d);
  }

  // ---------------------------------------------------------- resample

  function SqDist(a: Vec3, b: Vec3): real
  {
    Dot(Sub(a, b), Sub(a, b))
  }

  /** The nearest-neighbour search of the k-d tree: an index of a closest
      target point (the first one among equally close points). */
  function Nearest(p: Vec3, targets: seq<Vec3>): (k: nat)
    requires targets != []
    ensures k < |targets|
    ensures forall j | 0 <= j < |targets| :: SqDist(p, targets[k]) <= SqDist(p, targets[j])
  {
    if |targets| == 1 then 0
    else
      var k := Nearest(p, targets[..|targets| - 1]);
      assert forall j | 0 <= j < |targets| - 1 :: targets[..|targets| - 1][j] == targets[j];
      if SqDist(p, targets[|targets| - 1]) < SqDist(p, targets[k]) then |targets| - 1 else k
  }

  /** `resample_template_from_target`: a copy of the template (same cells,
      same number of points) in which every point is replaced by the target
      point nearest to it.  With points to move and no target point the
      search has nothing to return. */
  function ResampleTemplate(template: Mesh, target: Mesh): (r: Result<Mesh, string>)
    ensures r.Failure? <==> template.points != [] && target.points == []
    ensures r.Success? ==> r.value.cells == template.cells && |r.value.points| == |template.points|
    ensures r.Success? ==> forall i | 0 <= i < |template.points| ::
      && r.value.points[i] in target.points
      && forall j | 0 <= j < |target.points| ::
           SqDist(template.points[i], r.value.points[i]) <= SqDist(template.points[i], target.points[j])
  {
    if template.points == [] then Success(template)
    else if target.points == [] then Failure("no neighbour in an empty target")
    else
      Success(Mesh(seq(|template.points|, i requires 0 <= i < |template.points| =>
                     target.points[Nearest(template.points[i], target.points)]),
                   template.cells))
  }

  /** A point no farther from `p` than `p` itself coincides with it. */
  lemma ClosestToSelf(p: Vec3, q: Vec3)
    requires SqDist(p, q) <= SqDist(p, p)
    ensures SqDist(p, q) == 0.0
  {
    SqDistSelf(p);
    SqDistNonNegative(p, q);
  }

  /** Resampling a template whose points already lie on the target moves
      no point: each is replaced by a coincident target point. */
  lemma ResampleOnTarget(template: Mesh, target: Mesh)
    requires forall i | 0 <= i < |template.points| :: template.points[i] in target.points
    requires target.points != []
    ensures ResampleTemplate(template, target).Success?
    ensures forall i | 0 <= i < |template.points| ::
      SqDist(template.points[i], ResampleTemplate(template, target).value.points[i]) == 0.0
  {
    forall i | 0 <= i < |template.points|
      ensures SqDist(template.points[i], ResampleTemplate(template, target).value.points[i]) == 0.0
    {
      var j :| 0 <= j < |target.points| && target.points[j] == template.points[i];
      var k := Nearest(template.points[i], target.points);
      assert SqDist(template.points[i], target.points[k]) <= SqDist(template.points[i], target.points[j]);
      ClosestToSelf(template.points[i], target.points[k]);
    }
  }

  lemma SqDistSelf(p: Vec3)
    ensures SqDist(p, p) == 0.0
  {
    assert Sub(p, p) == Zero;
  }

  lemma SqDistNonNegative(a: Vec3, b: Vec3)
    ensures SqDist(a, b) >= 0.0
  {
    var v := Sub(a, b);
    assert v.x * v.x >= 0.0 && v.y * v.y >= 0.0 && v.z * v.z >= 0.0;
  }

  // -------------------------------------------------------- image list

  /** An image: its grid size, spacing and origin, and its pixels. */
  datatype Image = Image(size: Idx, spacing: Vec3, origin: Vec3, pixels: Field)

  const SpacingTolerance: real := 0.0000001

  /** The spacing check: one-sided, every image's spacing may exceed the
      first's by less than the tolerance on each axis. */
  predicate SpacingAgrees(images: seq<Image>)
    requires images != []
  {
    forall k, d | 1 <= k < |images| && 0 <= d < 3 ::
      Coord(images[k].spacing, d) - Coord(images[0].spacing, d) < SpacingTolerance
  }

  function MaxSize(a: Idx, b: Idx): Idx
  {
    Idx(if a.x >= b.x then a.x else b.x, if a.y >= b.y then a.y else b.y, if a.z >= b.z then a.z else b.z)
  }

  /** The per-axis maximum size over the images, starting from the first. */
  function CommonSize(acc: Idx, images: seq<Image>): (s: Idx)
    ensures s.x >= acc.x && s.y >= acc.y && s.z >= acc.z
    ensures forall k | 0 <= k < |images| ::
      s.x >= images[k].size.x && s.y >= images[k].size.y && s.z >= images[k].size.z
    decreases |images|
    ensures (s.x == acc.x || exists k | 0 <= k < |images| :: s.x == images[k].size.x)
    ensures (s.y == acc.y || exists k | 0 <= k < |images| :: s.y == images[k].size.y)
    ensures (s.z == acc.z || exists k | 0 <= k < |images| :: s.z == images[k].size.z)
  {
    if images == [] then acc
    else
      var s := CommonSize(MaxSize(acc, images[0].size), images[1..]);
      assert forall k | 1 <= k < |images| :: images[k] == images[1..][k - 1];
      s
  }

  function Origin3(): Idx { Idx(0, 0, 0) }

  /** `paste_to_common_space`: every image pasted at index 0 into a freshly
      allocated image of the common size, keeping its spacing.  The new image
      has the default origin, and `Allocate()` does not initialise pixels:
      outside the pasted region the contents are whatever `uninit` holds.
      No image is an `IndexError`; a spacing mismatch an `AssertionError`. */
  function PasteToCommonSpace(images: seq<Image>, uninit: Field): (r: Result<seq<Image>, string>)
    ensures r.Failure? <==> images == [] || !SpacingAgrees(images)
    ensures r.Success? ==> |r.value| == |images|
    ensures r.Success? ==> forall k | 0 <= k < |images| ::
      var out := r.value[k];
      && out.size == r.value[0].size
      && out.size.x >= images[k].size.x && out.size.y >= images[k].size.y && out.size.z >= images[k].size.z
      && out.spacing == images[k].spacing && out.origin == Vec3(0.0, 0.0, 0.0)
      && out.pixels.Keys == Voxels(Region(Origin3(), out.size))
      && forall i | i in out.pixels ::
           out.pixels[i] == if InRegion(Region(Origin3(), images[k].size), i) then Real(images[k].pixels, i)
                            else Real(uninit, i)
  {
    if images == [] then Failure("IndexError")
    else if !SpacingAgrees(images) then Failure("AssertionError")
    else
      var size := CommonSize(images[0].size, images);
      var whole := Region(Origin3(), size);
      Success(seq(|images|, k requires 0 <= k < |images| =>
        Image(size, images[k].spacing, Vec3(0.0, 0.0, 0.0),
              map i | i in Voxels(whole) ::
                if InRegion(Region(Origin3(), images[k].size), i) then Real(images[k].pixels, i) else Real(uninit, i))))
  }

  /** The common size is attained: on each axis some image already has it. */
  lemma CommonSizeIsTight(images: seq<Image>)
    requires images != []
    ensures var s := CommonSize(images[0].size, images);
      && (exists k | 0 <= k < |images| :: s.x == images[k].size.x)
      && (exists k | 0 <= k < |images| :: s.y == images[k].size.y)
      && (exists k | 0 <= k < |images| :: s.z == images[k].size.z)
  {
  }

  /** Python's `int(size / ratio)` for a non-negative size: truncation,
      which is the floor. */
  function ShrunkSize(size: int, ratio: real): (n: int)
    requires size >= 0 && ratio > 1.0
    ensures FitsShrunk(size, n, ratio)
  {
    var q := (size as real) / ratio;
    assert q * ratio == size as real;
    QuotientFloor(size as real, ratio, q);
    q.Floor
  }

  /** The floor of a quotient `q = size / ratio`, bounded by multiplication. */
  lemma QuotientFloor(size: real, ratio: real, q: real)
    requires q * ratio == size && size >= 0.0 && ratio > 1.0
    ensures 0 <= q.Floor && q.Floor as real <= size
    ensures (q.Floor as real) * ratio <= size < ((q.Floor + 1) as real) * ratio
  {
    if q < 0.0 {
      MulLess(q, 0.0, ratio);
    }
    MulAtMost(1.0, ratio, q);
    var n := q.Floor;
    MulAtMost(n as real, q, ratio);
    var m := (n + 1) as real;
    MulLess(q, m, ratio);
    calc {
      size;
    ==
      q * ratio;
    <
      m * ratio;
    }
  }

  lemma MulAtMost(a: real, b: real, c: real)
    requires a <= b && c >= 0.0
    ensures a * c <= b * c
  {
    assert b * c - a * c == (b - a) * c;
  }

  lemma MulLess(a: real, b: real, c: real)
    requires a < b && c > 0.0
    ensures a * c < b * c
  {
    assert b * c - a * c == (b - a) * c;
  }

  /** `downsample_images`: the ratio must exceed 1; each image is resampled
      (by `resample`) onto a grid with `int(size / ratio)` voxels per axis,
      the spacing multiplied by the ratio and the origin kept. */
  function Downsample(images: seq<Image>, ratio: real, resample: (Image, Idx, Vec3) -> Field)
    : (r: Result<seq<Image>, string>)
    requires forall k | 0 <= k < |images| :: NonNegative(images[k].size)
    ensures r.Failure? <==> ratio <= 1.0
    ensures r.Success? ==> |r.value| == |images|
    ensures r.Success? ==> forall k | 0 <= k < |images| :: ShrunkBy(images[k], r.value[k], ratio)
  {
    if ratio <= 1.0 then Failure("AssertionError")
    else
      Success(seq(|images|, k requires 0 <= k < |images| => Shrink(images[k], ratio, resample)))
  }

  /** `n` voxels of the old spacing times `ratio` fit in `size`, and one
      more would not. */
  predicate FitsShrunk(size: int, n: int, ratio: real)
  {
    0 <= n <= size && (n as real) * ratio <= size as real < ((n + 1) as real) * ratio
  }

  /** `out` is `im` downsampled by `ratio`: same origin, spacing scaled, and
      on each axis as many coarse voxels as fit. */
  predicate ShrunkBy(im: Image, out: Image, ratio: real)
  {
    && out.origin == im.origin
    && out.spacing == Vec3(im.spacing.x * ratio, im.spacing.y * ratio, im.spacing.z * ratio)
    && FitsShrunk(im.size.x, out.size.x, ratio)
    && FitsShrunk(im.size.y, out.size.y, ratio)
    && FitsShrunk(im.size.z, out.size.z, ratio)
  }

  /** One image of `downsample_images`. */
  function Shrink(im: Image, ratio: real, resample: (Image, Idx, Vec3) -> Field): (out: Image)
    requires NonNegative(im.size) && ratio > 1.0
    ensures ShrunkBy(im, out, ratio)
  {
    var size := Idx(ShrunkSize(im.size.x, ratio), ShrunkSize(im.size.y, ratio), ShrunkSize(im.size.z, ratio));
    var spacing := Vec3(im.spacing.x * ratio, im.spacing.y * ratio, im.spacing.z * ratio);
    Image(size, spacing, im.origin, resample(im, size, spacing))
  }

  // ---------------------------------------------------- correspondence

  /** All meshes have as many points as the first. */
  predicate Corresponding(meshes: seq<Mesh>)
    requires meshes != []
  {
    forall k | 0 <= k < |meshes| :: |meshes[k].points| == |meshes[0].points|
  }

  /** `get_mean_correspondence_mesh`: the Procrustes mean (`procrustes`) of
      meshes in point correspondence, with the first mesh's cells put back.
      A count mismatch is an `AssertionError`, no mesh an `IndexError`. */
  function MeanCorrespondence(meshes: seq<Mesh>, procrustes: seq<Mesh> -> seq<Vec3>): (r: Result<Mesh, string>)
    ensures r.Failure? <==> meshes == [] || !Corresponding(meshes)
    ensures r.Success? ==> r.value == Mesh(procrustes(meshes), meshes[0].cells)
  {
    if meshes == [] then Failure("IndexError")
    else if !Corresponding(meshes) then Failure("AssertionError")
    else Success(Mesh(procrustes(meshes), meshes[0].cells))
  }

  /** `get_pairwise_hausdorff_distance`: the largest distance between
      corresponding points (the point pairs of equal index), where `norm`
      turns a squared distance into a distance (`** 0.5`).  The loop reads
      point 0 first and the second mesh at every index of the first. */
  method Hausdorff(first: Mesh, second: Mesh, norm: real -> real) returns (dist: real)
    requires first.points != [] && |second.points| >= |first.points|
    ensures forall i | 0 <= i < |first.points| :: norm(SqDist(first.points[i], second.points[i])) <= dist
    ensures exists i | 0 <= i < |first.points| :: dist == norm(SqDist(first.points[i], second.points[i]))
  {
    dist := norm(SqDist(first.points[0], second.points[0]));
    var idx := 1;
    while idx < |first.points|
      invariant 1 <= idx <= |first.points|
      invariant forall i | 0 <= i < idx :: norm(SqDist(first.points[i], second.points[i])) <= dist
      invariant exists i | 0 <= i < idx :: dist == norm(SqDist(first.points[i], second.points[i]))
    {
      var d := norm(SqDist(first.points[idx], second.points[idx]));
      if d > dist {
        dist := d;
      }
      idx := idx + 1;
    }
  }
}
