/** The per-bone preprocessing of the label-transfer programs
    (`perBoneProcessing`) and the cut-plane crop of the pose-mesh program.

    `perBoneProcessing` builds a binary mask of the bone on the intensity
    image's region from a label image that may have a different extent (read
    through an index offset), takes its signed distance map (inside
    positive; an abstract function here) and replaces every intensity
    outside the bone by the scaled distance, so that the registration sees a
    smooth ramp instead of the surrounding texture. */
module LabelTransfer {
  import opened Wrappers
  import opened Grid
  import opened BoneLabels
  import opened Geometry

  /** The label counts the two callers pass: the input keeps only its first
      bone, the atlas all of its labels. */
  const InputLabelCount: int := 3
  const AtlasLabelCount: int := 255

  /** The factor applied to negative distances. */
  const DistanceScale: real := 1024.0

  function Shift(i: Idx, adj: Idx): Idx
  {
    Idx(i.x + adj.x, i.y + adj.y, i.z + adj.z)
  }

  function ShiftRegion(r: Region, adj: Idx): Region
  {
    Region(Shift(r.index, adj), r.size)
  }

  predicate Empty(r: Region)
  {
    r.size.x == 0 || r.size.y == 0 || r.size.z == 0
  }

  /** `ImageRegion::IsInside(region)`: the region lies within `b` on every
      axis. */
  predicate Inside(a: Region, b: Region)
  {
    && b.index.x <= a.index.x && a.index.x + a.size.x <= b.index.x + b.size.x
    && b.index.y <= a.index.y && a.index.y + a.size.y <= b.index.y + b.size.y
    && b.index.z <= a.index.z && a.index.z + a.size.z <= b.index.z + b.size.z
  }

  lemma InsideWithin(a: Region, b: Region)
    requires Inside(a, b)
    ensures Within(a, b)
  {
  }

  /** The whole-bone mask of `perBoneProcessing`: zero-allocated on the
      bone image's region, set to 1 where the label read at the shifted
      index lies in `1..howMany`.  A region iterator refuses a non-empty
      region outside the label image's buffered region. */
  function SelectLabels(labels: Labels, labelRegion: Region, boneRegion: Region, adj: Idx, howMany: int)
    : (r: Result<Labels, string>)
    ensures r.Failure? <==> !Empty(boneRegion) && !Inside(ShiftRegion(boneRegion, adj), labelRegion)
    ensures r.Success? ==> r.value.Keys == Voxels(boneRegion)
    ensures r.Success? ==> forall i | i in r.value ::
      (r.value[i] == 1 <==> 1 <= Value(labels, Shift(i, adj)) <= howMany) && r.value[i] in {0, 1}
  {
    if !Empty(boneRegion) && !Inside(ShiftRegion(boneRegion, adj), labelRegion) then
      Failure("Region is outside of buffered region")
    else
      Success(map i | i in Voxels(boneRegion) :: if 1 <= Value(labels, Shift(i, adj)) <= howMany then 1 else 0)
  }

  /** With the input's count, a voxel is selected exactly when its label is
      one of the first bone's split labels; with the atlas's count, exactly
      when it holds any label of an 8-bit label image. */
  lemma SelectionMeaning(l: int)
    requires 0 <= l <= 255
    ensures 1 <= l <= InputLabelCount <==> l != 0 && BoneOf(l) == 1
    ensures 1 <= l <= InputLabelCount <==> l in {SplitLabel(1, Cortical), SplitLabel(1, Trabecular), SplitLabel(1, Marrow)}
    ensures 1 <= l <= AtlasLabelCount <==> l != 0
  {
  }

  /** The distance proxy: every voxel of the region whose signed distance is
      negative (outside the bone) takes the distance times 1024; every other
      voxel keeps its intensity. */
  function DistanceProxy(image: Field, dist: Field, region: Region): (out: Field)
    ensures out.Keys == image.Keys
    ensures forall i | i in out :: out[i] == if InRegion(region, i) && Real(dist, i) < 0.0 then Real(dist, i) * DistanceScale else image[i]
  {
    map i | i in image :: if InRegion(region, i) && Real(dist, i) < 0.0 then Real(dist, i) * DistanceScale else image[i]
  }

  /** The proxy keeps the order of distances outside the bone: farther from
      the bone is darker, and every such voxel is negative. */
  lemma ProxyOrdersOutside(image: Field, dist: Field, region: Region, i: Idx, j: Idx)
    requires i in image && j in image && InRegion(region, i) && InRegion(region, j)
    requires Real(dist, i) < Real(dist, j) < 0.0
    ensures DistanceProxy(image, dist, region)[i] < DistanceProxy(image, dist, region)[j] < 0.0
  {
  }

  /** `perBoneProcessing`: the selection, its signed distance map (`sdf`,
      inside positive) and the intensity image with the proxy applied.
      Returns the modified image and the distance map. */
  function PerBoneProcessing(image: Field, boneRegion: Region, labels: Labels, labelRegion: Region, adj: Idx,
                             howMany: int, sdf: Labels -> Field)
    : (r: Result<(Field, Field), string>)
    ensures r.Failure? <==> SelectLabels(labels, labelRegion, boneRegion, adj, howMany).Failure?
    ensures r.Success? ==> r.value.1 == sdf(SelectLabels(labels, labelRegion, boneRegion, adj, howMany).value)
    ensures r.Success? ==> r.value.0.Keys == image.Keys
    ensures r.Success? ==> forall i | i in image && !(InRegion(boneRegion, i) && Real(r.value.1, i) < 0.0) ::
      r.value.0[i] == image[i]
    ensures r.Success? ==> forall i | i in image && InRegion(boneRegion, i) && Real(r.value.1, i) < 0.0 ::
      r.value.0[i] == Real(r.value.1, i) * DistanceScale
  {
    var selected :- SelectLabels(labels, labelRegion, boneRegion, adj, howMany);
    var dist := sdf(selected);
    Success((DistanceProxy(image, dist, boneRegion), dist))
  }

  // ------------------------------------------------------- pose crop

  /** The cut plane, in millimetres along the first pose axis. */
  const CutPlane: real := 2.5

  /** The pose-mesh crop: a foreground voxel whose position, mapped back into
      the pose frame by `toPose` (index to physical point, then the inverse
      landmark transform), lies beyond the cut plane becomes background;
      every other voxel is unchanged. */
  function PoseCrop(labels: Labels, toPose: Idx -> Vec3): (out: Labels)
    ensures out.Keys == labels.Keys
    ensures forall i | i in out :: out[i] == if labels[i] != 0 && toPose(i).x > CutPlane then 0 else labels[i]
  {
    map i | i in labels :: if labels[i] != 0 && toPose(i).x > CutPlane then 0 else labels[i]
  }

  /** After the crop the foreground is the old foreground on the near side
      of the plane, and cropping again changes nothing. */
  lemma PoseCropForeground(labels: Labels, toPose: Idx -> Vec3)
    ensures forall i | i in labels ::
      (PoseCrop(labels, toPose)[i] != 0 <==> labels[i] != 0 && toPose(i).x <= CutPlane)
    ensures PoseCrop(PoseCrop(labels, toPose), toPose) == PoseCrop(labels, toPose)
  {
  }
}
