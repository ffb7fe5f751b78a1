/** The per-bone stages shared by the bone segmenter's generations:
    threshold masks and the cortex combination, the per-bone regions, the
    bone's basin, the masked partial input, seeds and island marking, and the
    dilate/erode chain.  The ITK filters these stages call (distance map,
    hole filling, region growing) are parameters. */
module BonePipeline {
  import opened Wrappers
  import opened Grid
  import opened Morphology
  import opened BoundingBox

  /** Lower threshold of the Gaussian-smoothed intensity. */
  const GaussLower: int := 2000
  /** Lower threshold of the Descoteaux sheetness measure. */
  const DescoLower: real := 0.1
  /** The strict intensity threshold that separates bones. */
  const StrictLower: int := 5000
  /** Lower threshold of the per-bone region growing. */
  const GrowLower: int := 1500
  /** The intensity written outside a bone's basin in its partial input. */
  const Background: int := -4096
  /** The morphology margin, in cortical thicknesses. */
  const MarginThicknesses: real := 8.0

  /** The ITK filters the pipeline treats as black boxes. */
  datatype Filters = Filters(
    sdf: DistanceMap,                         // SignedMaurerDistanceMap, squared
    fillHoles: Mask -> Mask,                  // BinaryFillhole, foreground 1
    grow: (Labels, set<Idx>, int) -> Mask)    // NeighborhoodConnected from seeds, lower bound

  /** The run's geometry: cortical thickness, voxel spacing, the distance
      tolerance and the image's largest possible region. */
  datatype Settings = Settings(thickness: real, spacing: Spacing, epsDist: real, whole: Region)

  datatype Spacing = Spacing(x: real, y: real, z: real)

  predicate ValidSettings(s: Settings)
  {
    && WellFormed(s.whole)
    && s.thickness >= 0.0
    && s.spacing.x > 0.0 && s.spacing.y > 0.0 && s.spacing.z > 0.0
  }

  /** `std::ceil` on a real. */
  function Ceil(x: real): (c: int)
    ensures x <= c as real < x + 1.0
  {
    if x.Floor as real == x then x.Floor else x.Floor + 1
  }

  /** Voxels needed on one axis to hold `radius`: `ceil(radius / spacing)`. */
  function AxisMargin(radius: real, spacing: real): (n: int)
    requires radius >= 0.0 && spacing > 0.0
    ensures n >= 0
    ensures n as real * spacing >= radius
    ensures n as real * spacing - spacing < radius
  {
    var k := Ceil(radius / spacing);
    CeilCovers(radius, spacing, k);
    k
  }

  lemma CeilCovers(radius: real, spacing: real, n: int)
    requires spacing > 0.0 && n == Ceil(radius / spacing)
    ensures n as real * spacing >= radius
    ensures n as real * spacing - spacing < radius
  {
    var q := radius / spacing;
    assert q * spacing == radius;
    var a: real := n as real;
    assert q <= a && a - 1.0 < q;
    ScaleMonotone(q, a, spacing);
    assert a * spacing >= radius;
    var b := a - 1.0;
    ScaleMonotone(b, q, spacing);
    assert b * spacing < radius;
    assert b * spacing == a * spacing - spacing;
  }

  /** Scaling by a positive factor keeps the order of two reals. */
  lemma ScaleMonotone(x: real, y: real, c: real)
    requires x <= y && c > 0.0
    ensures x * c <= y * c
    ensures x < y ==> x * c < y * c
  {
    var d := y - x;
    assert y * c == x * c + d * c;
    assert d > 0.0 ==> d * c > 0.0;
  }

  /** `opSize`: the per-axis padding, `ceil(8 t / spacing)` voxels, so that
      every dilation and erosion radius of the pipeline (at most 6 t) fits in
      the padding. */
  function OpSize(s: Settings): (op: Idx)
    requires ValidSettings(s)
    ensures NonNegative(op)
    ensures op.x as real * s.spacing.x >= MarginThicknesses * s.thickness
    ensures op.y as real * s.spacing.y >= MarginThicknesses * s.thickness
    ensures op.z as real * s.spacing.z >= MarginThicknesses * s.thickness
  {
    var r := MarginThicknesses * s.thickness;
    Idx(AxisMargin(r, s.spacing.x), AxisMargin(r, s.spacing.y), AxisMargin(r, s.spacing.z))
  }

  /** A binary threshold with a lower bound on an integer image, buffered on `r`. */
  function AtLeastInt(v: Labels, lower: int, r: Region): (m: Mask)
    ensures m.Keys == Voxels(r)
    ensures forall i :: i in m ==> (m[i] <==> Value(v, i) >= lower)
  {
    map i | i in Voxels(r) :: Value(v, i) >= lower
  }

  /** A binary threshold with a lower bound on a real image, buffered on `r`. */
  function AtLeastReal(v: Field, lower: real, r: Region): (m: Mask)
    ensures m.Keys == Voxels(r)
    ensures forall i :: i in m ==> (m[i] <==> Real(v, i) >= lower)
  {
    map i | i in Voxels(r) :: Real(v, i) >= lower
  }

  /** The strict-threshold mask the bones are numbered from. */
  function StrictMask(input: Labels, whole: Region): (m: Mask)
    ensures m.Keys == Voxels(whole)
    ensures forall i :: i in m ==> (m[i] <==> Value(input, i) >= StrictLower)
  {
    AtLeastInt(input, StrictLower, whole)
  }

  /** The cortex mask of the newer generations: allocated zero on the padded
      image, then set over the whole image wherever (sheetness mask or
      smoothed mask) and the strict mask hold.  The padding band stays 0. */
  function CortexMask(desco: Mask, gauss: Mask, th: Mask, whole: Region, op: Idx): (c: Mask)
    requires NonNegative(op)
    ensures c.Keys == Voxels(PadByRadius(whole, op))
    ensures forall i :: i in c ==> (c[i] <==> InRegion(whole, i) && (On(desco, i) || On(gauss, i)) && On(th, i))
  {
    Overwrite(Filled(PadByRadius(whole, op), false), whole,
      i => if (On(desco, i) || On(gauss, i)) && On(th, i) then Some(true) else None)
  }

  /** The cortex mask computed from the filters' raw outputs: the sheetness
      measure thresholded at 0.1, the smoothed intensity at 2000 and the
      input at 5000. */
  function CortexFromMeasures(input: Labels, smoothed: Labels, sheetness: Field, whole: Region, op: Idx): (c: Mask)
    requires NonNegative(op)
    ensures c.Keys == Voxels(PadByRadius(whole, op))
    ensures forall i :: i in c ==>
      (c[i] <==> InRegion(whole, i)
                 && (Real(sheetness, i) >= DescoLower || Value(smoothed, i) >= GaussLower)
                 && Value(input, i) >= StrictLower)
  {
    CortexMask(AtLeastReal(sheetness, DescoLower, whole), AtLeastInt(smoothed, GaussLower, whole),
               StrictMask(input, whole), whole, op)
  }

  /** `boneRegion`: start at the box minimum, size `max - min + 1`. */
  function Tight(lo: Idx, hi: Idx): (r: Region)
    ensures Between(lo, lo, hi) ==> WellFormed(r)
    ensures forall i :: InRegion(r, i) <==> Between(lo, i, hi)
  {
    Region(lo, Idx(hi.x - lo.x + 1, hi.y - lo.y + 1, hi.z - lo.z + 1))
  }

  /** `expandedBoneRegion`: the tight box grown by `op` on both sides. */
  function Expanded(lo: Idx, hi: Idx, op: Idx): (r: Region)
    requires NonNegative(op)
    ensures Between(lo, lo, hi) ==> WellFormed(r)
    ensures forall i :: InRegion(r, i) <==>
      Between(Idx(lo.x - op.x, lo.y - op.y, lo.z - op.z), i, Idx(hi.x + op.x, hi.y + op.y, hi.z + op.z))
  {
    Region(Idx(lo.x - op.x, lo.y - op.y, lo.z - op.z),
           Idx(hi.x - lo.x + 1 + 2 * op.x, hi.y - lo.y + 1 + 2 * op.y, hi.z - lo.z + 1 + 2 * op.z))
  }

  /** `safeBoneRegion`: the expanded box cropped to the image. */
  function SafeRegion(lo: Idx, hi: Idx, op: Idx, whole: Region): Region
    requires Between(lo, lo, hi) && NonNegative(op) && WellFormed(whole)
  {
    Crop(Expanded(lo, hi, op), whole)
  }

  /** For a box whose corners lie in the image, the regions nest:
      tight ⊆ safe ⊆ expanded, and safe ⊆ whole image. */
  lemma RegionsNest(lo: Idx, hi: Idx, op: Idx, whole: Region)
    requires Between(lo, lo, hi) && NonNegative(op) && WellFormed(whole)
    requires InRegion(whole, lo) && InRegion(whole, hi)
    ensures Within(Tight(lo, hi), whole)
    ensures Within(Tight(lo, hi), SafeRegion(lo, hi, op, whole))
    ensures Within(SafeRegion(lo, hi, op, whole), Expanded(lo, hi, op))
    ensures Within(SafeRegion(lo, hi, op, whole), whole)
  {
    var e := Expanded(lo, hi, op);
    assert InRegion(e, lo) && InRegion(whole, lo);
    assert Overlap(e, whole);
  }

  /** What the sweeps before the per-bone loop leave: the input, the cortex
      mask, the numbered bones, their distance map and the bone boxes. */
  datatype Prepared = Prepared(
    input: Labels, cortex: Mask, bones: Labels, boneDist: Field,
    lo: seq<Idx>, hi: seq<Idx>, numBones: nat)

  /** Every bone's box is non-empty and its corners lie in the image. */
  predicate ValidPrepared(s: Settings, p: Prepared)
  {
    && ValidSettings(s)
    && |p.lo| == p.numBones + 1 && |p.hi| == p.numBones + 1
    && (forall b | 1 <= b <= p.numBones ::
          Between(p.lo[b], p.lo[b], p.hi[b]) && InRegion(s.whole, p.lo[b]) && InRegion(s.whole, p.hi[b]))
  }

  /** `thisBone`: allocated zero on the expanded region; set inside the tight
      box where the bone label is `bone`. */
  function ThisBone(bones: Labels, bone: int, tight: Region, expanded: Region): (m: Mask)
    ensures m.Keys == Voxels(expanded)
    ensures forall i :: i in m ==> (m[i] <==> InRegion(tight, i) && Value(bones, i) == bone)
  {
    Overwrite(Filled(expanded, false), tight, i => if Value(bones, i) == bone then Some(true) else None)
  }

  function Abs(x: real): real
  {
    if x < 0.0 then -x else x
  }

  /** `boneBasin` before hole filling: allocated zero on the safe region; set
      inside the tight box where this bone's distance and the all-bones
      distance differ by less than `eps`, i.e. where this bone is the nearest. */
  function Basin(thisDist: Field, boneDist: Field, eps: real, tight: Region, safe: Region): (m: Mask)
    ensures m.Keys == Voxels(safe)
    ensures forall i :: i in m ==> (m[i] <==> InRegion(tight, i) && Abs(Real(thisDist, i) - Real(boneDist, i)) < eps)
  {
    Overwrite(Filled(safe, false), tight,
      i => if Abs(Real(thisDist, i) - Real(boneDist, i)) < eps then Some(true) else None)
  }

  /** `partialInput`: filled with -4096 on the safe region; inside the tight
      box the input intensity is copied wherever the filled basin is set. */
  function PartialInput(input: Labels, basin: Mask, tight: Region, safe: Region): (m: Labels)
    ensures m.Keys == Voxels(safe)
    ensures forall i :: i in m ==>
      m[i] == (if InRegion(tight, i) && On(basin, i) then Value(input, i) else Background)
  {
    Overwrite(Filled(safe, Background), tight, i => if On(basin, i) then Some(Value(input, i)) else None)
  }

  /** The region-growing seeds: every voxel of the tight box labelled `bone`. */
  function Seeds(bones: Labels, bone: int, tight: Region): (s: set<Idx>)
    ensures forall i :: i in s <==> InRegion(tight, i) && Value(bones, i) == bone
  {
    set i | i in Voxels(tight) && Value(bones, i) == bone
  }

  /** Bone `b` is an island of `bone`: another bone label found inside
      `bone`'s filled basin within its tight box. */
  predicate IslandIn(bones: Labels, basin: Mask, tight: Region, bone: int, b: int)
  {
    b > 0 && b != bone && exists i | i in Voxels(tight) :: Value(bones, i) == b && On(basin, i)
  }

  /** The `replacedBy` table after `bone`'s sweep: every island of `bone` is
      marked with `bone`; every other entry is unchanged. */
  function MarkIslands(rb: seq<int>, bones: Labels, basin: Mask, tight: Region, bone: int): (r: seq<int>)
    ensures |r| == |rb|
  {
    seq(|rb|, b requires 0 <= b < |rb| => if IslandIn(bones, basin, tight, bone, b) then bone else rb[b])
  }

  /** What the seed and island sweep knows after visiting `done`. */
  ghost predicate Swept(bones: Labels, basin: Mask, bone: int, rb: seq<int>, done: set<Idx>,
                        seeds: set<Idx>, marked: seq<int>)
  {
    && seeds == (set i | i in done && Value(bones, i) == bone)
    && |marked| == |rb|
    && forall b | 0 <= b < |rb| ::
         marked[b] == (if b > 0 && b != bone && exists i | i in done :: Value(bones, i) == b && On(basin, i)
                       then bone else rb[b])
  }

  lemma SweepStep(bones: Labels, basin: Mask, bone: int, rb: seq<int>, done: set<Idx>,
                  seeds: set<Idx>, marked: seq<int>, i: Idx)
    requires bone > 0 && 0 <= Value(bones, i) < |rb|
    requires Swept(bones, basin, bone, rb, done, seeds, marked)
    ensures var b := Value(bones, i);
      Swept(bones, basin, bone, rb, done + {i},
            if b == bone then seeds + {i} else seeds,
            if b > 0 && b != bone && On(basin, i) then marked[b := bone] else marked)
  {
    var b := Value(bones, i);
    var done' := done + {i};
    var seeds' := if b == bone then seeds + {i} else seeds;
    var marked' := if b > 0 && b != bone && On(basin, i) then marked[b := bone] else marked;
    assert seeds' == (set j | j in done' && Value(bones, j) == bone);
    forall c | 0 <= c < |rb|
      ensures marked'[c] == (if c > 0 && c != bone && exists j | j in done' :: Value(bones, j) == c && On(basin, j)
                             then bone else rb[c])
    {
      if c == b && b > 0 && b != bone && On(basin, i) {
        assert i in done';
      } else {
        if c > 0 && c != bone && exists j | j in done' :: Value(bones, j) == c && On(basin, j) {
          var j :| j in done' && Value(bones, j) == c && On(basin, j);
          assert j in done;
        }
      }
    }
  }

  /** The sweep over the tight box that adds the seeds and marks islands
      (one pass, in any voxel order).  It yields exactly the seed set and the
      marked table. */
  method ScanSeedsAndIslands(bones: Labels, basin: Mask, tight: Region, bone: int, rb: seq<int>)
    returns (seeds: set<Idx>, marked: seq<int>)
    requires bone > 0
    requires forall i | i in Voxels(tight) :: 0 <= Value(bones, i) < |rb|
    ensures seeds == Seeds(bones, bone, tight)
    ensures |marked| == |rb|
    ensures forall b | 0 <= b < |rb| ::
      marked[b] == (if IslandIn(bones, basin, tight, bone, b) then bone else rb[b])
  {
    seeds, marked := SweepVoxels(bones, basin, bone, rb, Voxels(tight), {}, rb, {});
    assert {} + Voxels(tight) == Voxels(tight);
  }

  /** Sweeps the voxels `todo` after those in `done`. */
  method SweepVoxels(bones: Labels, basin: Mask, bone: int, rb: seq<int>, todo: set<Idx>,
                     seeds: set<Idx>, marked: seq<int>, ghost done: set<Idx>)
    returns (seeds': set<Idx>, marked': seq<int>)
    requires bone > 0
    requires forall i | i in todo :: 0 <= Value(bones, i) < |rb|
    requires Swept(bones, basin, bone, rb, done, seeds, marked)
    ensures Swept(bones, basin, bone, rb, done + todo, seeds', marked')
  {
    seeds', marked' := seeds, marked;
    var rest := todo;
    ghost var seen := done;
    while rest != {}
      invariant rest <= todo && seen + rest == done + todo
      invariant Swept(bones, basin, bone, rb, seen, seeds', marked')
      decreases |rest|
    {
      var i :| i in rest;
      seeds', marked' := VisitVoxel(bones, basin, bone, rb, seeds', marked', i, seen);
      rest := rest - {i};
      seen := seen + {i};
    }
  }

  /** One voxel of the sweep: a voxel of the bone is a seed; a voxel of
      another bone inside the basin marks that bone as an island. */
  method VisitVoxel(bones: Labels, basin: Mask, bone: int, rb: seq<int>, seeds: set<Idx>, marked: seq<int>,
                    i: Idx, ghost done: set<Idx>)
    returns (seeds': set<Idx>, marked': seq<int>)
    requires bone > 0 && 0 <= Value(bones, i) < |rb|
    requires Swept(bones, basin, bone, rb, done, seeds, marked)
    ensures Swept(bones, basin, bone, rb, done + {i}, seeds', marked')
  {
    var b := Value(bones, i);
    SweepStep(bones, basin, bone, rb, done, seeds, marked, i);
    seeds', marked' := seeds, marked;
    if b > 0 {
      if b == bone {
        seeds' := seeds + {i};
      } else if On(basin, i) {
        marked' := marked[b := bone];
      }
    }
  }

  /** The marrow seed: the trabecular mask, or-ed inside the tight box with
      the eroded bone mask. */
  function MarrowSeed(th: Mask, eroded: Mask, tight: Region): (m: Mask)
    ensures m.Keys == th.Keys
    ensures forall i :: i in m ==> (m[i] <==> th[i] || (InRegion(tight, i) && On(eroded, i)))
  {
    Overwrite(th, tight, i => Some(On(eroded, i) || On(th, i)))
  }

  /** The masks of the dilate/erode chain, in the order they are made. */
  datatype Chain = Chain(dilated: Mask, eroded: Mask, bone: Mask, seed: Mask, marrowDilated: Mask, marrow: Mask)

  /** Dilate 3t, erode 4t, dilate t give the bone mask; the marrow seed is
      dilated 5t and eroded 6t. */
  function Morph(sdf: DistanceMap, th: Mask, t: real, tight: Region): (c: Chain)
    ensures forall i :: i in c.dilated ==> (c.dilated[i] <==> Real(sdf(th), i) <= (3.0 * t) * (3.0 * t))
    ensures forall i :: i in c.eroded ==> (c.eroded[i] <==> (4.0 * t) * (4.0 * t) <= Real(sdf(Not(c.dilated)), i))
    ensures forall i :: i in c.bone ==> (c.bone[i] <==> Real(sdf(c.eroded), i) <= t * t)
    ensures c.seed == MarrowSeed(th, c.eroded, tight)
    ensures forall i :: i in c.marrowDilated ==> (c.marrowDilated[i] <==> Real(sdf(c.seed), i) <= (5.0 * t) * (5.0 * t))
    ensures forall i :: i in c.marrow ==> (c.marrow[i] <==> (6.0 * t) * (6.0 * t) <= Real(sdf(Not(c.marrowDilated)), i))
  {
    var dilated := Dilate(sdf, th, 3.0 * t);
    var eroded := Erode(sdf, dilated, 4.0 * t);
    var bone := Dilate(sdf, eroded, 1.0 * t);
    var seed := MarrowSeed(th, eroded, tight);
    var marrowDilated := Dilate(sdf, seed, 5.0 * t);
    Chain(dilated, eroded, bone, seed, marrowDilated, Erode(sdf, marrowDilated, 6.0 * t))
  }

  /** Everything the per-bone loop computes for one bone that does not
      depend on earlier bones: its regions, its filled basin and its chain. */
  datatype BoneWork = BoneWork(tight: Region, safe: Region, basin: Mask, chain: Chain)

  function Work(s: Settings, f: Filters, p: Prepared, bone: nat): (w: BoneWork)
    requires ValidPrepared(s, p) && 1 <= bone <= p.numBones
    ensures w.tight == Tight(p.lo[bone], p.hi[bone])
    ensures w.safe == SafeRegion(p.lo[bone], p.hi[bone], OpSize(s), s.whole)
  {
    var op := OpSize(s);
    var tight := Tight(p.lo[bone], p.hi[bone]);
    var expanded := Expanded(p.lo[bone], p.hi[bone], op);
    var safe := Crop(expanded, s.whole);
    var thisDist := f.sdf(ThisBone(p.bones, bone, tight, expanded));
    var basin := f.fillHoles(Basin(thisDist, p.boneDist, s.epsDist, tight, safe));
    var partial := PartialInput(p.input, basin, tight, safe);
    var th := ZeroPad(f.grow(partial, Seeds(p.bones, bone, tight), GrowLower), safe, op);
    BoneWork(tight, safe, basin, Morph(f.sdf, th, s.thickness, tight))
  }
}
