/** The oldest generation of the bone segmenter (`mainProcessing` of the
    top-level program).  It works on the whole image for every bone: no
    bounding boxes, no basins and no island skipping, so a later bone can
    overwrite what an earlier one wrote. */
module SegmentLegacy {
  import opened Wrappers
  import opened Grid
  import opened Morphology
  import opened BoneLabels
  import opened BonePipeline
  import opened SegmentFilter

  /** The sheetness threshold of this generation. */
  const LegacyDescoLower: real := 0.2
  /** The single intensity threshold of this generation, used both for the
      cortex and for numbering the bones. */
  const LegacyLower: int := 1500

  /** The cortex mask: the sheetness mask, then every voxel of the image is
      overwritten with (sheetness or smoothed mask) and the threshold mask. */
  function LegacyCortex(desco: Mask, gauss: Mask, th: Mask, whole: Region): (c: Mask)
    ensures c.Keys == Voxels(whole)
    ensures forall i :: i in c ==> (c[i] <==> (On(desco, i) || On(gauss, i)) && On(th, i))
  {
    map i | i in Voxels(whole) :: (On(desco, i) || On(gauss, i)) && On(th, i)
  }

  /** The cortex mask from the filters' raw outputs. */
  function LegacyCortexFromMeasures(input: Labels, smoothed: Labels, sheetness: Field, whole: Region): (c: Mask)
    ensures c.Keys == Voxels(whole)
    ensures forall i :: i in c ==>
      (c[i] <==> (Real(sheetness, i) >= LegacyDescoLower || Value(smoothed, i) >= GaussLower)
                 && Value(input, i) >= LegacyLower)
  {
    LegacyCortex(AtLeastReal(sheetness, LegacyDescoLower, whole), AtLeastInt(smoothed, GaussLower, whole),
                 AtLeastInt(input, LegacyLower, whole), whole)
  }

  /** The trabecular seed of one bone: its voxels outside the eroded cortex,
      written at every voxel of the image. */
  function TrabecularSeed(bones: Labels, cortexEroded: Mask, whole: Region, bone: int): (m: Mask)
    ensures m.Keys == Voxels(whole)
    ensures forall i :: i in m ==> (m[i] <==> Value(bones, i) == bone && !On(cortexEroded, i))
  {
    map i | i in Voxels(whole) :: Value(bones, i) == bone && !On(cortexEroded, i)
  }

  /** One bone's chain: the same radii as the newer generations, started
      from the trabecular seed, with the marrow seed or-ed over the whole
      image.  The marrow seed covers the image and is exactly the bone's
      own voxels outside the eroded cortex together with the closed
      trabecular mask, wherever in the image either lies. */
  function LegacyChain(sdf: DistanceMap, bones: Labels, cortexEroded: Mask, t: real, whole: Region, bone: int): (c: Chain)
    ensures c.seed.Keys == Voxels(whole)
    ensures forall i :: i in c.seed ==>
      (c.seed[i] <==> (Value(bones, i) == bone && !On(cortexEroded, i)) || On(c.eroded, i))
    ensures forall i :: i in c.dilated ==>
      (c.dilated[i] <==> Real(sdf(TrabecularSeed(bones, cortexEroded, whole, bone)), i) <= (3.0 * t) * (3.0 * t))
  {
    Morph(sdf, TrabecularSeed(bones, cortexEroded, whole, bone), t, whole)
  }

  /** The label this generation writes at one voxel for `bone`: the split
      rule, with the cortex counted only on the bone's own voxels and the
      dilated trabecular mask in place of the bone mask. */
  function LegacyWritten(cortex: bool, ownVoxel: bool, dilated: bool, marrow: bool, bone: int): Option<int>
  {
    Written(cortex && ownVoxel, dilated, marrow, bone, false)
  }

  /** Cortical only where the cortex is set and the voxel belongs to the
      bone; otherwise trabecular where the dilated mask is set, then marrow;
      nothing where none applies. */
  lemma LegacyPriority(cortex: bool, ownVoxel: bool, dilated: bool, marrow: bool, bone: int)
    ensures var r := LegacyWritten(cortex, ownVoxel, dilated, marrow, bone);
      && (r == Some(SplitLabel(bone, Cortical)) <==> cortex && ownVoxel)
      && (r == Some(SplitLabel(bone, Trabecular)) <==> !(cortex && ownVoxel) && dilated)
      && (r == Some(SplitLabel(bone, Marrow)) <==> !(cortex && ownVoxel) && !dilated && marrow)
      && (r.None? <==> !(cortex && ownVoxel) && !dilated && !marrow)
  {
    SplitPriority(cortex && ownVoxel, dilated, marrow, bone);
  }

  /** The value the pass for `bone` leaves at voxel `i` that held `before`. */
  function LegacyVoxel(before: int, c: Chain, cortex: Mask, bones: Labels, whole: Region, bone: int, i: Idx): int
  {
    var x := LegacyWritten(On(cortex, i), Value(bones, i) == bone, On(c.bone, i), On(c.marrow, i), bone);
    if InRegion(whole, i) && x.Some? then x.value else before
  }

  /** One bone's compositing pass over the whole image. */
  function LegacyComposite(out: Labels, c: Chain, cortex: Mask, bones: Labels, whole: Region, bone: int): (o: Labels)
    ensures o.Keys == out.Keys
  {
    map i | i in out :: LegacyVoxel(out[i], c, cortex, bones, whole, bone, i)
  }

  /** The compositing rule at one voxel: outside the image nothing changes;
      inside it the pass writes its label where one applies and keeps the
      old value elsewhere. */
  lemma LegacyCompositeAt(out: Labels, c: Chain, cortex: Mask, bones: Labels, whole: Region, bone: int, i: Idx)
    requires i in out
    ensures var o := LegacyComposite(out, c, cortex, bones, whole, bone);
      var x := LegacyWritten(On(cortex, i), Value(bones, i) == bone, On(c.bone, i), On(c.marrow, i), bone);
      o[i] == (if InRegion(whole, i) && x.Some? then x.value else out[i])
  {
  }

  /** The output after bones `1..k`, every bone processed. */
  function LegacyRun(chains: seq<Chain>, cortex: Mask, bones: Labels, whole: Region, initial: Labels, k: nat): (o: Labels)
    requires k < |chains|
    ensures o.Keys == initial.Keys
    decreases k
  {
    if k == 0 then initial
    else LegacyComposite(LegacyRun(chains, cortex, bones, whole, initial, k - 1), chains[k], cortex, bones, whole, k)
  }

  /** Bone `k` has the last word: wherever its pass writes a label, the
      output after bone `k` holds exactly that label, whatever earlier bones
      wrote there. */
  lemma LegacyLaterBoneOverwrites(chains: seq<Chain>, cortex: Mask, bones: Labels, whole: Region, initial: Labels,
                                  k: nat, i: Idx)
    requires 1 <= k < |chains| && i in initial && InRegion(whole, i)
    requires LegacyWritten(On(cortex, i), Value(bones, i) == k, On(chains[k].bone, i), On(chains[k].marrow, i), k).Some?
    ensures LegacyRun(chains, cortex, bones, whole, initial, k)[i] ==
      LegacyWritten(On(cortex, i), Value(bones, i) == k, On(chains[k].bone, i), On(chains[k].marrow, i), k).value
  {
    LegacyCompositeAt(LegacyRun(chains, cortex, bones, whole, initial, k - 1), chains[k], cortex, bones, whole, k, i);
  }

  /** At one voxel, bone `bone`'s pass keeps the old value or writes one of
      that bone's three labels. */
  lemma LegacyCompositeLabel(out: Labels, c: Chain, cortex: Mask, bones: Labels, whole: Region, bone: nat, i: Idx)
    requires bone >= 1 && i in out
    ensures var o := LegacyComposite(out, c, cortex, bones, whole, bone);
      o[i] == out[i] || 1 <= o[i] <= 3 * bone
  {
    LegacyCompositeAt(out, c, cortex, bones, whole, bone, i);
    var x := LegacyWritten(On(cortex, i), Value(bones, i) == bone, On(c.bone, i), On(c.marrow, i), bone);
    assert x.Some? ==> 1 <= x.value <= 3 * bone;
  }

  /** After bones `1..k` every voxel holds its initial value or a split
      label of one of those bones. */
  lemma LegacyLabelsInRange(chains: seq<Chain>, cortex: Mask, bones: Labels, whole: Region,
                            initial: Labels, k: nat)
    requires k < |chains|
    ensures var o := LegacyRun(chains, cortex, bones, whole, initial, k);
      forall i | i in o :: o[i] == initial[i] || 1 <= o[i] <= 3 * k
  {
    var o := LegacyRun(chains, cortex, bones, whole, initial, k);
    forall i | i in o
      ensures o[i] == initial[i] || 1 <= o[i] <= 3 * k
    {
      LegacyLabelAt(chains, cortex, bones, whole, initial, k, i);
    }
  }

  /** `LegacyLabelsInRange` at one voxel. */
  lemma {:induction false} LegacyLabelAt(chains: seq<Chain>, cortex: Mask, bones: Labels, whole: Region,
                                         initial: Labels, k: nat, i: Idx)
    requires k < |chains| && i in initial
    ensures var o := LegacyRun(chains, cortex, bones, whole, initial, k);
      o[i] == initial[i] || 1 <= o[i] <= 3 * k
  {
    if k > 0 {
      LegacyLabelAt(chains, cortex, bones, whole, initial, k - 1, i);
      LegacyCompositeLabel(LegacyRun(chains, cortex, bones, whole, initial, k - 1), chains[k], cortex, bones, whole, k, i);
    }
  }

  /** The chains of every bone (entry 0 unused).  Bone `j`'s marrow seed is
      its own voxels where the cortex, eroded by half a cortical thickness,
      is not set, together with its closed trabecular mask. */
  function LegacyChains(s: Settings, f: Filters, bones: Labels, cortex: Mask, numBones: nat): (cs: seq<Chain>)
    ensures |cs| == numBones + 1
    ensures forall j | 1 <= j <= numBones :: cs[j].seed.Keys == Voxels(s.whole)
    ensures forall j, i | 1 <= j <= numBones && i in cs[j].seed ::
      (cs[j].seed[i] <==> (Value(bones, i) == j && !On(Erode(f.sdf, cortex, 0.5 * s.thickness), i)) || On(cs[j].eroded, i))
  {
    var eroded := Erode(f.sdf, cortex, 0.5 * s.thickness);
    seq(numBones + 1, j => LegacyChain(f.sdf, bones, eroded, s.thickness, s.whole, j))
  }

  /** The per-bone loop of this generation. */
  method LegacyLoop(chains: seq<Chain>, cortex: Mask, bones: Labels, whole: Region, initial: Labels)
    returns (out: Labels)
    requires |chains| >= 1
    ensures out == LegacyRun(chains, cortex, bones, whole, initial, |chains| - 1)
  {
    out := initial;
    var bone := 1;
    while bone < |chains|
      invariant 1 <= bone <= |chains|
      invariant out == LegacyRun(chains, cortex, bones, whole, initial, bone - 1)
    {
      assert LegacyRun(chains, cortex, bones, whole, initial, bone)
        == LegacyComposite(out, chains[bone], cortex, bones, whole, bone);
      out := LegacyComposite(out, chains[bone], cortex, bones, whole, bone);
      bone := bone + 1;
    }
  }

  /** `mainProcessing` of this generation from the filters' outputs onwards.
      More than 85 bones throws; otherwise the zero-filled output holds only
      background or split labels of bones `1..numBones`. */
  method LegacyProcessing(s: Settings, f: Filters, input: Labels, smoothed: Labels, sheetness: Field,
                          bones: Labels, numBones: nat)
    returns (r: Result<Labels, string>)
    ensures r.Failure? <==> numBones > MaxBones
    ensures r.Success? ==> r.value.Keys == Voxels(s.whole)
    ensures r.Success? ==> forall i | i in r.value :: r.value[i] == 0 || 1 <= r.value[i] <= 3 * numBones
    ensures r.Success? ==> r.value == LegacyRun(LegacyChains(s, f, bones,
      LegacyCortexFromMeasures(input, smoothed, sheetness, s.whole), numBones),
      LegacyCortexFromMeasures(input, smoothed, sheetness, s.whole), bones, s.whole, Filled(s.whole, 0), numBones)
  {
    var cortex := LegacyCortexFromMeasures(input, smoothed, sheetness, s.whole);
    if numBones > MaxBones {
      return Failure("There are too many bones to fit into uchar");
    }
    var chains := LegacyChains(s, f, bones, cortex, numBones);
    var zero := Filled(s.whole, 0);
    var out := LegacyLoop(chains, cortex, bones, s.whole, zero);
    LegacyLabelsInRange(chains, cortex, bones, s.whole, zero, numBones);
    return Success(out);
  }
}
