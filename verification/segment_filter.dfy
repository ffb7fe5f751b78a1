/** The ITK filter generation of the bone segmenter (`GenerateData`): the
    per-bone loop as a fold over bone labels `1..numBones`.  Each step either
    skips a bone that an earlier bone marked as its island, or computes the
    bone's work and composites it into the output inside the bone's basin. */
module SegmentFilter {
  import opened Wrappers
  import opened Grid
  import opened Morphology
  import opened BoneLabels
  import opened BoundingBox
  import opened BonePipeline

  /** The label composited at one voxel of a basin, if any.  Split mode:
      cortex first, then the bone mask, then marrow.  Whole mode: the bone
      label wherever any of the three is set. */
  function Written(cortex: bool, bone: bool, marrow: bool, b: int, wholeBones: bool): Option<int>
  {
    if wholeBones then (if cortex || bone || marrow then Some(b) else None)
    else if cortex then Some(SplitLabel(b, Cortical))
    else if bone then Some(SplitLabel(b, Trabecular))
    else if marrow then Some(SplitLabel(b, Marrow))
    else None
  }

  /** Split mode gives cortical > trabecular > marrow priority, and writes
      nothing where none of the masks is set. */
  lemma SplitPriority(cortex: bool, bone: bool, marrow: bool, b: int)
    ensures Written(cortex, bone, marrow, b, false) == Some(SplitLabel(b, Cortical)) <==> cortex
    ensures Written(cortex, bone, marrow, b, false) == Some(SplitLabel(b, Trabecular)) <==> !cortex && bone
    ensures Written(cortex, bone, marrow, b, false) == Some(SplitLabel(b, Marrow)) <==> !cortex && !bone && marrow
    ensures Written(cortex, bone, marrow, b, false).None? <==> !cortex && !bone && !marrow
  {
  }

  /** Whole mode writes the bone label exactly where some mask is set. */
  lemma WholeRule(cortex: bool, bone: bool, marrow: bool, b: int)
    ensures Written(cortex, bone, marrow, b, true) == (if cortex || bone || marrow then Some(b) else None)
  {
  }

  /** The compositing pass over the safe region, clipped to the basin:
      outside the basin every voxel keeps its value, inside it takes the
      written label if there is one.  It reads the un-eroded cortex mask. */
  function Composite(out: Labels, w: BoneWork, cortex: Mask, b: int, wholeBones: bool): (o: Labels)
    ensures o.Keys == out.Keys
    ensures forall i :: i in o && !(InRegion(w.safe, i) && On(w.basin, i)) ==> o[i] == out[i]
    ensures forall i :: i in o && InRegion(w.safe, i) && On(w.basin, i) ==>
      var x := Written(On(cortex, i), On(w.chain.bone, i), On(w.chain.marrow, i), b, wholeBones);
      o[i] == (if x.Some? then x.value else out[i])
  {
    map i | i in out :: CompositeVoxel(out[i], w, cortex, b, wholeBones, i)
  }

  /** The value the pass for bone `b` leaves at voxel `i` that held
      `before`. */
  function CompositeVoxel(before: int, w: BoneWork, cortex: Mask, b: int, wholeBones: bool, i: Idx): int
  {
    var x := Written(On(cortex, i), On(w.chain.bone, i), On(w.chain.marrow, i), b, wholeBones);
    if InRegion(w.safe, i) && On(w.basin, i) && x.Some? then x.value else before
  }

  /** The fold state: the output volume and the `replacedBy` table. */
  datatype State = State(out: Labels, replacedBy: seq<int>)

  /** The per-bone work of every bone, indexed by label (entry 0 unused).
      The work of a bone does not depend on earlier bones, so the fold reads
      it from this table. */
  predicate WorkTable(s: Settings, f: Filters, p: Prepared, ws: seq<BoneWork>)
  {
    && ValidPrepared(s, p)
    && |ws| == p.numBones + 1
    && forall j | 1 <= j <= p.numBones :: ws[j] == Work(s, f, p, j)
  }

  /** One bone of the per-bone loop: skip it when marked, otherwise
      composite its work and mark its islands. */
  function Step(ws: seq<BoneWork>, bones: Labels, cortex: Mask, wholeBones: bool, st: State, bone: nat): (r: State)
    requires 1 <= bone < |ws| && |st.replacedBy| == |ws|
    ensures |r.replacedBy| == |ws| && r.out.Keys == st.out.Keys
  {
    if st.replacedBy[bone] > 0 then st
    else
      var w := ws[bone];
      State(Composite(st.out, w, cortex, bone, wholeBones),
            MarkIslands(st.replacedBy, bones, w.basin, w.tight, bone))
  }

  /** The state after bones `1..k`, starting from `initial` and an all-zero
      `replacedBy` table. */
  function Run(ws: seq<BoneWork>, bones: Labels, cortex: Mask, wholeBones: bool, initial: Labels, k: nat): (r: State)
    requires k < |ws|
    ensures |r.replacedBy| == |ws| && r.out.Keys == initial.Keys
    decreases k
  {
    if k == 0 then State(initial, seq(|ws|, _ => 0))
    else Step(ws, bones, cortex, wholeBones, Run(ws, bones, cortex, wholeBones, initial, k - 1), k)
  }

  /** The output after bone `k`: the previous output, composited with bone
      `k`'s work unless `k` was marked. */
  lemma RunOut(ws: seq<BoneWork>, bones: Labels, cortex: Mask, wholeBones: bool, initial: Labels, k: nat)
    requires 1 <= k < |ws|
    ensures var st := Run(ws, bones, cortex, wholeBones, initial, k - 1);
      Run(ws, bones, cortex, wholeBones, initial, k).out ==
        if st.replacedBy[k] > 0 then st.out else Composite(st.out, ws[k], cortex, k, wholeBones)
  {
  }

  /** `RunOut` at one voxel. */
  lemma RunOutAt(ws: seq<BoneWork>, bones: Labels, cortex: Mask, wholeBones: bool, initial: Labels, k: nat, i: Idx)
    requires 1 <= k < |ws| && i in initial
    ensures var st := Run(ws, bones, cortex, wholeBones, initial, k - 1);
      Run(ws, bones, cortex, wholeBones, initial, k).out[i] ==
        if st.replacedBy[k] > 0 then st.out[i] else CompositeVoxel(st.out[i], ws[k], cortex, k, wholeBones, i)
  {
    RunOut(ws, bones, cortex, wholeBones, initial, k);
  }

  /** A label the output may hold for bones `1..k`. */
  predicate BoneLabel(v: int, k: nat, wholeBones: bool)
  {
    if wholeBones then 1 <= v <= k else 1 <= v <= 3 * k
  }

  /** At one voxel, bone `b`'s pass keeps the old value or writes one of
      bone `b`'s labels. */
  lemma CompositeLabel(out: Labels, w: BoneWork, cortex: Mask, b: nat, wholeBones: bool, i: Idx)
    requires b >= 1 && i in out
    ensures var o := Composite(out, w, cortex, b, wholeBones);
      o[i] == out[i] || BoneLabel(o[i], b, wholeBones)
  {
    var x := Written(On(cortex, i), On(w.chain.bone, i), On(w.chain.marrow, i), b, wholeBones);
    assert x.Some? ==> BoneLabel(x.value, b, wholeBones);
  }

  /** After bones `1..k`, each voxel holds its initial value or a label of
      one of those bones. */
  lemma {:induction false} RunLabelsInRange(ws: seq<BoneWork>, bones: Labels, cortex: Mask, wholeBones: bool,
                                            initial: Labels, k: nat)
    requires k < |ws|
    ensures var o := Run(ws, bones, cortex, wholeBones, initial, k).out;
      forall i | i in o :: o[i] == initial[i] || BoneLabel(o[i], k, wholeBones)
  {
    if k > 0 {
      RunLabelsInRange(ws, bones, cortex, wholeBones, initial, k - 1);
      var prev := Run(ws, bones, cortex, wholeBones, initial, k - 1);
      var o := Run(ws, bones, cortex, wholeBones, initial, k).out;
      forall i | i in o
        ensures o[i] == initial[i] || BoneLabel(o[i], k, wholeBones)
      {
        if prev.replacedBy[k] <= 0 {
          CompositeLabel(prev.out, ws[k], cortex, k, wholeBones, i);
        }
      }
    }
  }

  /** Voxels that no bone's basin covers keep their initial value. */
  lemma {:induction false} RunKeepsUncoveredVoxels(ws: seq<BoneWork>, bones: Labels, cortex: Mask, wholeBones: bool,
                                                   initial: Labels, k: nat, i: Idx)
    requires k < |ws| && i in initial
    requires forall j | 1 <= j <= k :: !(InRegion(ws[j].safe, i) && On(ws[j].basin, i))
    ensures Run(ws, bones, cortex, wholeBones, initial, k).out[i] == initial[i]
  {
    if k > 0 {
      RunKeepsUncoveredVoxels(ws, bones, cortex, wholeBones, initial, k - 1, i);
    }
  }

  /** The `replacedBy` table after bones `1..k`, on its own: the output
      volume never influences it. */
  function Marks(ws: seq<BoneWork>, bones: Labels, k: nat): (r: seq<int>)
    requires k < |ws|
    ensures |r| == |ws|
    decreases k
  {
    if k == 0 then seq(|ws|, _ => 0)
    else
      var prev := Marks(ws, bones, k - 1);
      if prev[k] > 0 then prev else MarkIslands(prev, bones, ws[k].basin, ws[k].tight, k)
  }

  lemma {:induction false} RunMarks(ws: seq<BoneWork>, bones: Labels, cortex: Mask, wholeBones: bool,
                                    initial: Labels, k: nat)
    requires k < |ws|
    ensures Run(ws, bones, cortex, wholeBones, initial, k).replacedBy == Marks(ws, bones, k)
  {
    if k > 0 {
      RunMarks(ws, bones, cortex, wholeBones, initial, k - 1);
    }
  }

  /** The value voxel `i` holds after bones `1..k`, followed on its own from
      its initial value `v0`. */
  function VoxelAfter(ws: seq<BoneWork>, bones: Labels, cortex: Mask, wholeBones: bool, v0: int, k: nat, i: Idx): int
    requires k < |ws|
    decreases k
  {
    if k == 0 then v0
    else
      var prev := VoxelAfter(ws, bones, cortex, wholeBones, v0, k - 1, i);
      if Marks(ws, bones, k - 1)[k] > 0 then prev else CompositeVoxel(prev, ws[k], cortex, k, wholeBones, i)
  }

  /** The run, read at one voxel, is that voxel's own history. */
  lemma {:induction false} RunAt(ws: seq<BoneWork>, bones: Labels, cortex: Mask, wholeBones: bool,
                                 initial: Labels, k: nat, i: Idx)
    requires k < |ws| && i in initial
    ensures Run(ws, bones, cortex, wholeBones, initial, k).out[i] == VoxelAfter(ws, bones, cortex, wholeBones, initial[i], k, i)
  {
    if k > 0 {
      RunAt(ws, bones, cortex, wholeBones, initial, k - 1, i);
      RunMarks(ws, bones, cortex, wholeBones, initial, k - 1);
      RunOutAt(ws, bones, cortex, wholeBones, initial, k, i);
    }
  }

  /** Bone `j` is processed (not skipped) in the run. */
  predicate Processed(ws: seq<BoneWork>, bones: Labels, j: nat)
    requires 1 <= j < |ws|
  {
    Marks(ws, bones, j - 1)[j] == 0
  }

  /** Bone `b` lies inside bone `j`'s filled basin. */
  predicate IslandOf(ws: seq<BoneWork>, bones: Labels, j: nat, b: int)
    requires 1 <= j < |ws|
  {
    IslandIn(bones, ws[j].basin, ws[j].tight, j, b)
  }

  /** One entry of the table after bone `k`. */
  lemma MarksStep(ws: seq<BoneWork>, bones: Labels, k: nat, b: nat)
    requires 1 <= k < |ws| && b < |ws|
    ensures Marks(ws, bones, k)[b] ==
      if Marks(ws, bones, k - 1)[k] <= 0 && IslandOf(ws, bones, k, b) then k else Marks(ws, bones, k - 1)[b]
  {
  }

  /** The `replacedBy` table after bones `1..k` holds 0 or a bone `1..k`. */
  lemma {:induction false} MarksInRange(ws: seq<BoneWork>, bones: Labels, k: nat)
    requires k < |ws|
    ensures forall b | 0 <= b < |ws| :: 0 <= Marks(ws, bones, k)[b] <= k
  {
    if k > 0 {
      MarksInRange(ws, bones, k - 1);
      forall b | 0 <= b < |ws|
        ensures 0 <= Marks(ws, bones, k)[b] <= k
      {
        MarksStep(ws, bones, k, b);
      }
    }
  }

  /** One entry `b > k` of the table: its meaning after bone `k - 1`
      carries over to bone `k`. */
  lemma MarksEntry(ws: seq<BoneWork>, bones: Labels, k: nat, b: nat)
    requires 1 <= k < b < |ws|
    requires 0 <= Marks(ws, bones, k - 1)[k] && 0 <= Marks(ws, bones, k - 1)[b]
    requires Marks(ws, bones, k - 1)[b] > 0 <==>
      exists j | 1 <= j <= k - 1 :: Processed(ws, bones, j) && IslandOf(ws, bones, j, b)
    ensures Marks(ws, bones, k)[b] > 0 <==> exists j | 1 <= j <= k :: Processed(ws, bones, j) && IslandOf(ws, bones, j, b)
  {
    MarksStep(ws, bones, k, b);
    var here := Processed(ws, bones, k) && IslandOf(ws, bones, k, b);
    var before := exists j | 1 <= j <= k - 1 :: Processed(ws, bones, j) && IslandOf(ws, bones, j, b);
    assert Marks(ws, bones, k)[b] > 0 <==> here || before;
    if exists j | 1 <= j <= k :: Processed(ws, bones, j) && IslandOf(ws, bones, j, b) {
      var j :| 1 <= j <= k && Processed(ws, bones, j) && IslandOf(ws, bones, j, b);
      assert j == k || 1 <= j <= k - 1;
    }
    if before {
      var j :| 1 <= j <= k - 1 && Processed(ws, bones, j) && IslandOf(ws, bones, j, b);
      assert 1 <= j <= k;
    }
  }

  /** Entry `b > k` of the table after bones `1..k` is non-zero exactly when
      some processed bone `j <= k` found `b` inside its basin. */
  lemma {:induction false} MarksComeFromEarlierBones(ws: seq<BoneWork>, bones: Labels, k: nat)
    requires k < |ws|
    ensures forall b | k < b < |ws| ::
      Marks(ws, bones, k)[b] > 0 <==> exists j | 1 <= j <= k :: Processed(ws, bones, j) && IslandOf(ws, bones, j, b)
  {
    if k > 0 {
      MarksComeFromEarlierBones(ws, bones, k - 1);
      MarksInRange(ws, bones, k - 1);
      forall b | k < b < |ws|
        ensures Marks(ws, bones, k)[b] > 0 <==> exists j | 1 <= j <= k :: Processed(ws, bones, j) && IslandOf(ws, bones, j, b)
      {
        MarksEntry(ws, bones, k, b);
      }
    }
  }

  /** Bone `b` is skipped exactly when a processed bone with a smaller label
      found it inside its basin; marks on smaller labels never skip anything. */
  lemma SkippedIffIslandOfEarlierBone(ws: seq<BoneWork>, bones: Labels, cortex: Mask, wholeBones: bool,
                                      initial: Labels, b: nat)
    requires 1 <= b < |ws|
    ensures Run(ws, bones, cortex, wholeBones, initial, b - 1).replacedBy[b] > 0 <==>
      exists j | 1 <= j < b :: Processed(ws, bones, j) && IslandOf(ws, bones, j, b)
  {
    RunMarks(ws, bones, cortex, wholeBones, initial, b - 1);
    MarksComeFromEarlierBones(ws, bones, b - 1);
  }

  /** The nonzero voxels of the numbered bones on the image, padded with
      zeros by `op`: the input of the all-bones distance map. */
  function BoneMask(bones: Labels, whole: Region, op: Idx): (m: Mask)
    requires NonNegative(op)
    ensures m.Keys == Voxels(PadByRadius(whole, op))
    ensures forall i :: i in m ==> (m[i] <==> InRegion(whole, i) && Value(bones, i) > 0)
  {
    ZeroPad(map i | i in Voxels(whole) :: Value(bones, i) > 0, whole, op)
  }

  /** The work table the per-bone loop reads (entry 0 is never read). */
  function Works(s: Settings, f: Filters, p: Prepared): (ws: seq<BoneWork>)
    requires ValidPrepared(s, p)
    ensures WorkTable(s, f, p, ws)
  {
    var none := Chain(map[], map[], map[], map[], map[], map[]);
    seq(p.numBones + 1, j requires 0 <= j <= p.numBones =>
      if j == 0 then BoneWork(s.whole, s.whole, map[], none) else Work(s, f, p, j))
  }

  /** The boxes the bounding-box pass finds for labels that all occur in the
      image are non-empty and have their corners in the image. */
  lemma BoxesInImage(bones: Labels, whole: Region, numBones: nat, lo: seq<Idx>, hi: seq<Idx>, b: nat)
    requires |lo| == numBones + 1 && |hi| == numBones + 1 && 1 <= b <= numBones
    requires Occurs(bones, Voxels(whole), b)
    requires forall b, i | 1 <= b <= numBones && i in Voxels(whole) && Value(bones, i) == b :: Between(lo[b], i, hi[b])
    requires forall b, d | 1 <= b <= numBones && Occurs(bones, Voxels(whole), b) && 0 <= d < 3 ::
      Attained(bones, Voxels(whole), b, d, Coord(lo[b], d)) && Attained(bones, Voxels(whole), b, d, Coord(hi[b], d))
    ensures Between(lo[b], lo[b], hi[b]) && InRegion(whole, lo[b]) && InRegion(whole, hi[b])
  {
    var j :| j in Voxels(whole) && Value(bones, j) == b;
    assert Between(lo[b], j, hi[b]);
    forall d | 0 <= d < 3
      ensures Coord(whole.index, d) <= Coord(lo[b], d) < Coord(whole.index, d) + Coord(whole.size, d)
      ensures Coord(whole.index, d) <= Coord(hi[b], d) < Coord(whole.index, d) + Coord(whole.size, d)
    {
      assert Attained(bones, Voxels(whole), b, d, Coord(lo[b], d));
      assert Attained(bones, Voxels(whole), b, d, Coord(hi[b], d));
    }
    assert Coord(lo[b], 0) == lo[b].x && Coord(lo[b], 1) == lo[b].y && Coord(lo[b], 2) == lo[b].z;
    assert Coord(hi[b], 0) == hi[b].x && Coord(hi[b], 1) == hi[b].y && Coord(hi[b], 2) == hi[b].z;
  }

  /** One iteration of the per-bone loop agrees with one step of the fold,
      given the table the seed sweep marks. */
  lemma RunStep(ws: seq<BoneWork>, bones: Labels, cortex: Mask, wholeBones: bool, initial: Labels, k: nat,
                marked: seq<int>)
    requires 1 <= k < |ws| && |marked| == |ws|
    requires forall b | 0 <= b < |ws| ::
      marked[b] == (if IslandIn(bones, ws[k].basin, ws[k].tight, k, b) then k
                    else Run(ws, bones, cortex, wholeBones, initial, k - 1).replacedBy[b])
    ensures var st := Run(ws, bones, cortex, wholeBones, initial, k - 1);
      Run(ws, bones, cortex, wholeBones, initial, k) ==
        if st.replacedBy[k] > 0 then st else State(Composite(st.out, ws[k], cortex, k, wholeBones), marked)
  {
    var st := Run(ws, bones, cortex, wholeBones, initial, k - 1);
    if st.replacedBy[k] <= 0 {
      assert marked == MarkIslands(st.replacedBy, bones, ws[k].basin, ws[k].tight, k);
    }
  }

  /** Every voxel of a bone's tight box carries a label of the run. */
  lemma TightLabels(s: Settings, p: Prepared, bone: nat)
    requires ValidPrepared(s, p) && 1 <= bone <= p.numBones
    requires forall i | i in Voxels(s.whole) :: 0 <= Value(p.bones, i) <= p.numBones
    ensures forall i | i in Voxels(Tight(p.lo[bone], p.hi[bone])) :: 0 <= Value(p.bones, i) <= p.numBones
  {
    RegionsNest(p.lo[bone], p.hi[bone], OpSize(s), s.whole);
  }

  /** One bone of the per-bone loop, given its work `w`: skipped when
      marked, otherwise its islands are marked by the seed sweep and its
      labels are composited. */
  method ProcessBone(ghost ws: seq<BoneWork>, bones: Labels, cortex: Mask, wholeBones: bool, ghost initial: Labels,
                     bone: nat, w: BoneWork, out: Labels, replacedBy: seq<int>)
    returns (out': Labels, replacedBy': seq<int>)
    requires 1 <= bone < |ws| && w == ws[bone]
    requires forall i | i in Voxels(w.tight) :: 0 <= Value(bones, i) < |ws|
    requires State(out, replacedBy) == Run(ws, bones, cortex, wholeBones, initial, bone - 1)
    ensures State(out', replacedBy') == Run(ws, bones, cortex, wholeBones, initial, bone)
  {
    if replacedBy[bone] > 0 {
      out', replacedBy' := out, replacedBy;
    } else {
      var seeds, marked := ScanSeedsAndIslands(bones, w.basin, w.tight, bone, replacedBy);
      RunStep(ws, bones, cortex, wholeBones, initial, bone, marked);
      out', replacedBy' := Composite(out, w, cortex, bone, wholeBones), marked;
    }
  }

  /** The per-bone loop over bones `1..|ws|-1`, given each bone's work and
      starting from the output's contents `initial`.  It computes exactly
      the fold `Run`. */
  method PerBoneLoop(ws: seq<BoneWork>, bones: Labels, cortex: Mask, wholeBones: bool, initial: Labels)
    returns (out: Labels)
    requires |ws| >= 1
    requires forall j, i | 1 <= j < |ws| && i in Voxels(ws[j].tight) :: 0 <= Value(bones, i) < |ws|
    ensures out == Run(ws, bones, cortex, wholeBones, initial, |ws| - 1).out
  {
    out := initial;
    var replacedBy := seq(|ws|, _ => 0);
    var bone := 1;
    while bone < |ws|
      invariant 1 <= bone <= |ws|
      invariant State(out, replacedBy) == Run(ws, bones, cortex, wholeBones, initial, bone - 1)
    {
      out, replacedBy := ProcessBone(ws, bones, cortex, wholeBones, initial, bone, ws[bone], out, replacedBy);
      bone := bone + 1;
    }
  }

  /** What the sweeps before the per-bone loop produce from the filter's
      inputs: the cortex mask, the signed distance map of all bones, and
      each bone's exact box (`BoxesUnique` shows the boxes, and so the
      whole prepared state, are determined by the inputs). */
  ghost predicate PreparedFrom(s: Settings, f: Filters, input: Labels, smoothed: Labels, sheetness: Field,
                               bones: Labels, numBones: nat, p: Prepared)
    requires ValidSettings(s)
  {
    && p.input == input && p.bones == bones && p.numBones == numBones
    && p.cortex == CortexFromMeasures(input, smoothed, sheetness, s.whole, OpSize(s))
    && p.boneDist == f.sdf(BoneMask(bones, s.whole, OpSize(s)))
    && Boxes(bones, Voxels(s.whole), numBones, p.lo, p.hi)
  }

  /** The prepared state is a function of the inputs. */
  lemma PreparedUnique(s: Settings, f: Filters, input: Labels, smoothed: Labels, sheetness: Field,
                       bones: Labels, numBones: nat, p: Prepared, q: Prepared)
    requires ValidSettings(s)
    requires PreparedFrom(s, f, input, smoothed, sheetness, bones, numBones, p)
    requires PreparedFrom(s, f, input, smoothed, sheetness, bones, numBones, q)
    ensures p == q
  {
    BoxesUnique(bones, Voxels(s.whole), numBones, p.lo, p.hi, q.lo, q.hi);
  }

  /** `GenerateData` on an output buffer whose contents are `initial`.  The
      gaussian-smoothed input and the sheetness measure are the filters'
      outputs; `bones` and `numBones` are the connected-component labelling
      of the strict mask, relabelled so that labels `1..numBones` all occur.
      More than 85 bones throws; otherwise the output is the per-bone fold
      `Run` over all bones of the state `p` the sweeps prepare, so every
      voxel holds its initial value or a label of one of the bones, and
      with no bone at all the output is the buffer as it was allocated. */
  method Segment(s: Settings, f: Filters, input: Labels, smoothed: Labels, sheetness: Field,
                 bones: Labels, numBones: nat, wholeBones: bool, initial: Labels)
    returns (r: Result<Labels, string>, ghost p: Prepared)
    requires ValidSettings(s)
    requires forall i | i in Voxels(s.whole) :: IndexInRange(i)
    requires forall i | i in Voxels(s.whole) :: 0 <= Value(bones, i) <= numBones
    requires forall b | 1 <= b <= numBones :: Occurs(bones, Voxels(s.whole), b)
    ensures r.Failure? <==> numBones > MaxBones
    ensures r.Success? ==> ValidPrepared(s, p) && PreparedFrom(s, f, input, smoothed, sheetness, bones, numBones, p)
    ensures r.Success? && ValidPrepared(s, p) ==> r.value == Run(Works(s, f, p), p.bones, p.cortex, wholeBones, initial, p.numBones).out
    ensures r.Success? ==> r.value.Keys == initial.Keys
    ensures r.Success? ==>
      forall i | i in r.value :: r.value[i] == initial[i] || BoneLabel(r.value[i], numBones, wholeBones)
    ensures r.Success? && numBones == 0 ==> r.value == initial
  {
    if numBones > MaxBones {
      return Failure("There are too many bones to fit into uchar"), Prepared(input, map[], bones, map[], [], [], numBones);
    }
    var prepared := Prepare(s, f, input, smoothed, sheetness, bones, numBones);
    var out := RunBones(s, f, prepared, wholeBones, initial);
    return Success(out), prepared;
  }

  /** The sweeps before the per-bone loop: the cortex mask, the all-bones
      distance map and the bone boxes, which are non-empty and lie in the
      image because every label occurs. */
  method Prepare(s: Settings, f: Filters, input: Labels, smoothed: Labels, sheetness: Field,
                 bones: Labels, numBones: nat)
    returns (p: Prepared)
    requires ValidSettings(s)
    requires forall i | i in Voxels(s.whole) :: IndexInRange(i)
    requires forall i | i in Voxels(s.whole) :: 0 <= Value(bones, i) <= numBones
    requires forall b | 1 <= b <= numBones :: Occurs(bones, Voxels(s.whole), b)
    ensures ValidPrepared(s, p)
    ensures PreparedFrom(s, f, input, smoothed, sheetness, bones, numBones, p)
  {
    var op := OpSize(s);
    var cortex := CortexFromMeasures(input, smoothed, sheetness, s.whole, op);
    var boneDist := f.sdf(BoneMask(bones, s.whole, op));
    var lo, hi := BoneBoxes(bones, s.whole, numBones);
    forall b | 1 <= b <= numBones
      ensures Between(lo[b], lo[b], hi[b]) && InRegion(s.whole, lo[b]) && InRegion(s.whole, hi[b])
    {
      BoxesInImage(bones, s.whole, numBones, lo, hi, b);
    }
    p := Prepared(input, cortex, bones, boneDist, lo, hi, numBones);
  }

  /** The per-bone loop of a prepared run: the output is the fold `Run`
      over all bones, so every voxel ends with its initial value or a label
      of one of the bones. */
  method RunBones(s: Settings, f: Filters, p: Prepared, wholeBones: bool, initial: Labels)
    returns (out: Labels)
    requires ValidPrepared(s, p)
    requires forall i | i in Voxels(s.whole) :: 0 <= Value(p.bones, i) <= p.numBones
    ensures out == Run(Works(s, f, p), p.bones, p.cortex, wholeBones, initial, p.numBones).out
    ensures out.Keys == initial.Keys
    ensures forall i | i in out :: out[i] == initial[i] || BoneLabel(out[i], p.numBones, wholeBones)
    ensures p.numBones == 0 ==> out == initial
  {
    var ws := Works(s, f, p);
    forall j | 1 <= j <= p.numBones
      ensures forall i | i in Voxels(ws[j].tight) :: 0 <= Value(p.bones, i) < |ws|
    {
      TightLabels(s, p, j);
    }
    out := PerBoneLoop(ws, p.bones, p.cortex, wholeBones, initial);
    RunLabelsInRange(ws, p.bones, p.cortex, wholeBones, initial, p.numBones);
  }

  /** The evidently intended filter: the output buffer is zero-filled before
      the per-bone loop, so the output is the fold from a zero image and
      every voxel is background or a bone's label. */
  method SegmentZeroed(s: Settings, f: Filters, input: Labels, smoothed: Labels, sheetness: Field,
                       bones: Labels, numBones: nat, wholeBones: bool)
    returns (r: Result<Labels, string>, ghost p: Prepared)
    requires ValidSettings(s)
    requires forall i | i in Voxels(s.whole) :: IndexInRange(i)
    requires forall i | i in Voxels(s.whole) :: 0 <= Value(bones, i) <= numBones
    requires forall b | 1 <= b <= numBones :: Occurs(bones, Voxels(s.whole), b)
    ensures r.Failure? <==> numBones > MaxBones
    ensures r.Success? ==> ValidPrepared(s, p) && PreparedFrom(s, f, input, smoothed, sheetness, bones, numBones, p)
    ensures r.Success? && ValidPrepared(s, p) ==>
      r.value == Run(Works(s, f, p), p.bones, p.cortex, wholeBones, Filled(s.whole, 0), p.numBones).out
    ensures r.Success? ==> r.value.Keys == Voxels(s.whole)
    ensures r.Success? ==> forall i | i in r.value :: r.value[i] == 0 || BoneLabel(r.value[i], numBones, wholeBones)
  {
    r, p := Segment(s, f, input, smoothed, sheetness, bones, numBones, wholeBones, Filled(s.whole, 0));
  }
}
