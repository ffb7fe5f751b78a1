/** The example program's generation of the bone segmenter
    (`mainProcessing` of the example).  The per-bone work is the filter's;
    what differs is that both outputs, the split labels and the whole-bone
    labels, are allocated zero-filled and written in the same pass, and that
    only bones `1..min(numBones, boneCount)` are processed. */
module SegmentExample {
  import opened Wrappers
  import opened Grid
  import opened BoneLabels
  import opened BoundingBox
  import opened BonePipeline
  import opened SegmentFilter

  /** The bone count used when the command line gives none: all bones. */
  const DefaultBoneCount: nat := 255

  /** The default cortical thickness of the command line. */
  const DefaultThickness: real := 0.1

  /** The command line of the example: input and output names, the cortical
      thickness, the debug level and the number of bones to process. */
  datatype Args = Args(input: string, output: string, thickness: real, debugLevel: nat, boneCount: nat)

  /** `unsigned` is 32 bits wide: storing `std::stoul`'s `unsigned long`
      in it keeps the value modulo 2^32. */
  const UnsignedModulus: nat := 0x1_0000_0000

  function ToUnsigned(v: nat): (u: nat)
    ensures u < UnsignedModulus
    ensures v < UnsignedModulus ==> u == v
  {
    v % UnsignedModulus
  }

  /** `main`'s argument handling.  Fewer than two arguments after the
      program name is a usage error.  The optional ones are parsed by
      `std::stod` and `std::stoul`, given here as `stod` and `stoul`, which
      return `None` where the C++ functions throw (no number, or one out of
      range); the exception reaches the catch-all handler and `main` fails.
      The debug level and the bone count are `unsigned`, so `stoul`'s
      result is truncated to 32 bits. */
  function ParseArgs(argv: seq<string>, stod: string -> Option<real>, stoul: string -> Option<nat>): (r: Result<Args, string>)
    ensures r.Failure? <==>
      || |argv| < 3
      || (|argv| > 3 && stod(argv[3]).None?)
      || (|argv| > 4 && stoul(argv[4]).None?)
      || (|argv| > 5 && stoul(argv[5]).None?)
    ensures r.Success? ==> r.value.input == argv[1] && r.value.output == argv[2]
    ensures r.Success? ==> r.value.thickness == (if |argv| > 3 then stod(argv[3]).value else DefaultThickness)
    ensures r.Success? ==> r.value.debugLevel == (if |argv| > 4 then ToUnsigned(stoul(argv[4]).value) else 0)
    ensures r.Success? ==> r.value.boneCount == (if |argv| > 5 then ToUnsigned(stoul(argv[5]).value) else DefaultBoneCount)
    ensures r.Success? ==> r.value.debugLevel < UnsignedModulus && r.value.boneCount < UnsignedModulus
  {
    if |argv| < 3 then Failure("Usage: <InputFileName> <OutputFileName> [corticalBoneThickness] [debugLevel] [boneCount]")
    else if |argv| > 3 && stod(argv[3]).None? then Failure("Unknown error has occurred")
    else if |argv| > 4 && stoul(argv[4]).None? then Failure("Unknown error has occurred")
    else if |argv| > 5 && stoul(argv[5]).None? then Failure("Unknown error has occurred")
    else
      Success(Args(argv[1], argv[2],
                   if |argv| > 3 then stod(argv[3]).value else DefaultThickness,
                   if |argv| > 4 then ToUnsigned(stoul(argv[4]).value) else 0,
                   if |argv| > 5 then ToUnsigned(stoul(argv[5]).value) else DefaultBoneCount))
  }

  /** With only the two file names every setting takes its default, whatever
      the parsers would say: cortical thickness 0.1, no debug output, and
      all bones. */
  lemma ParseArgsDefaults(argv: seq<string>, stod: string -> Option<real>, stoul: string -> Option<nat>)
    requires |argv| == 3
    ensures ParseArgs(argv, stod, stoul) == Success(Args(argv[1], argv[2], DefaultThickness, 0, DefaultBoneCount))
  {
  }

  /** A bone count of 2^32 + k wraps to k: asking for 2^32 bones processes
      none of them. */
  lemma BoneCountWraps(argv: seq<string>, stod: string -> Option<real>, stoul: string -> Option<nat>, k: nat, numBones: nat)
    requires |argv| == 6 && stod(argv[3]).Some? && stoul(argv[4]).Some?
    requires stoul(argv[5]) == Some(UnsignedModulus + k) && k < UnsignedModulus
    ensures ParseArgs(argv, stod, stoul).Success?
    ensures ParseArgs(argv, stod, stoul).value.boneCount == k
    ensures k == 0 ==> LastBone(numBones, ParseArgs(argv, stod, stoul).value.boneCount) == 0
  {
    assert (UnsignedModulus + k) % UnsignedModulus == k;
  }

  /** The last bone the per-bone loop processes. */
  function LastBone(numBones: nat, boneCount: nat): (k: nat)
    ensures k <= numBones && k <= boneCount
    ensures k == numBones || k == boneCount
  {
    if numBones < boneCount then numBones else boneCount
  }

  /** The whole-bone label that goes with a split label: background stays
      background, any other label gives its bone. */
  function WholeOf(l: int): int
  {
    if l == 0 then 0 else BoneOf(l)
  }

  /** The two outputs agree voxel by voxel: same voxels, and the whole-bone
      label is the bone of the split label. */
  ghost predicate Agree(split: Labels, whole: Labels)
  {
    split.Keys == whole.Keys && forall i | i in split :: whole[i] == WholeOf(split[i])
  }

  /** Both compositing rules write at a voxel exactly when one of the three
      masks is set, and the whole label is the bone of the split one. */
  lemma WrittenAgree(cortex: bool, bone: bool, marrow: bool, b: int)
    requires b >= 1
    ensures Written(cortex, bone, marrow, b, true).Some? <==> Written(cortex, bone, marrow, b, false).Some?
    ensures Written(cortex, bone, marrow, b, false).Some? ==>
      Written(cortex, bone, marrow, b, false).value != 0 &&
      Written(cortex, bone, marrow, b, true).value == BoneOf(Written(cortex, bone, marrow, b, false).value)
  {
  }

  /** At one voxel, a compositing pass keeps the outputs in agreement. */
  lemma CompositeVoxelAgree(sv: int, wv: int, w: BoneWork, cortex: Mask, b: int, i: Idx)
    requires b >= 1 && wv == WholeOf(sv)
    ensures CompositeVoxel(wv, w, cortex, b, true, i) == WholeOf(CompositeVoxel(sv, w, cortex, b, false, i))
  {
    WrittenAgree(On(cortex, i), On(w.chain.bone, i), On(w.chain.marrow, i), b);
  }

  /** One compositing pass keeps the outputs in agreement. */
  lemma CompositeAgree(split: Labels, whole: Labels, w: BoneWork, cortex: Mask, b: int)
    requires b >= 1 && Agree(split, whole)
    ensures Agree(Composite(split, w, cortex, b, false), Composite(whole, w, cortex, b, true))
  {
    var s' := Composite(split, w, cortex, b, false);
    var w' := Composite(whole, w, cortex, b, true);
    forall i | i in s'
      ensures w'[i] == WholeOf(s'[i])
    {
      CompositeVoxelAgree(split[i], whole[i], w, cortex, b, i);
    }
  }

  /** Started from agreeing volumes, the split fold and the whole fold agree
      after every bone. */
  lemma RunsAgree(ws: seq<BoneWork>, bones: Labels, cortex: Mask, split0: Labels, whole0: Labels, k: nat)
    requires k < |ws| && Agree(split0, whole0)
    ensures Agree(Run(ws, bones, cortex, false, split0, k).out, Run(ws, bones, cortex, true, whole0, k).out)
  {
    var s := Run(ws, bones, cortex, false, split0, k).out;
    var w := Run(ws, bones, cortex, true, whole0, k).out;
    forall i | i in s
      ensures w[i] == WholeOf(s[i])
    {
      RunAt(ws, bones, cortex, false, split0, k, i);
      RunAt(ws, bones, cortex, true, whole0, k, i);
      HistoriesAgree(ws, bones, cortex, split0[i], whole0[i], k, i);
    }
  }

  /** One voxel's histories in the two folds agree when they start out
      agreeing. */
  lemma {:induction false} HistoriesAgree(ws: seq<BoneWork>, bones: Labels, cortex: Mask, sv: int, wv: int, k: nat, i: Idx)
    requires k < |ws| && wv == WholeOf(sv)
    ensures VoxelAfter(ws, bones, cortex, true, wv, k, i) == WholeOf(VoxelAfter(ws, bones, cortex, false, sv, k, i))
  {
    if k > 0 {
      HistoriesAgree(ws, bones, cortex, sv, wv, k - 1, i);
      CompositeVoxelAgree(VoxelAfter(ws, bones, cortex, false, sv, k - 1, i), VoxelAfter(ws, bones, cortex, true, wv, k - 1, i),
                          ws[k], cortex, k, i);
    }
  }

  /** One bone of the example's loop: the seed sweep runs once and both
      outputs are composited in the same pass. */
  method ProcessBoneDual(ghost ws: seq<BoneWork>, bones: Labels, cortex: Mask, ghost zero: Labels,
                         bone: nat, w: BoneWork, split: Labels, whole: Labels, replacedBy: seq<int>)
    returns (split': Labels, whole': Labels, replacedBy': seq<int>)
    requires 1 <= bone < |ws| && w == ws[bone]
    requires forall i | i in Voxels(w.tight) :: 0 <= Value(bones, i) < |ws|
    requires split == Run(ws, bones, cortex, false, zero, bone - 1).out
    requires whole == Run(ws, bones, cortex, true, zero, bone - 1).out
    requires replacedBy == Run(ws, bones, cortex, false, zero, bone - 1).replacedBy
    requires replacedBy == Run(ws, bones, cortex, true, zero, bone - 1).replacedBy
    ensures split' == Run(ws, bones, cortex, false, zero, bone).out
    ensures whole' == Run(ws, bones, cortex, true, zero, bone).out
    ensures replacedBy' == Run(ws, bones, cortex, false, zero, bone).replacedBy
    ensures replacedBy' == Run(ws, bones, cortex, true, zero, bone).replacedBy
  {
    if replacedBy[bone] > 0 {
      split', whole', replacedBy' := split, whole, replacedBy;
    } else {
      var seeds, marked := ScanSeedsAndIslands(bones, w.basin, w.tight, bone, replacedBy);
      RunStep(ws, bones, cortex, false, zero, bone, marked);
      RunStep(ws, bones, cortex, true, zero, bone, marked);
      split' := Composite(split, w, cortex, bone, false);
      whole' := Composite(whole, w, cortex, bone, true);
      replacedBy' := marked;
    }
  }

  /** The example's per-bone loop over bones `1..last`, both outputs
      starting from `zero`. */
  method DualLoop(ws: seq<BoneWork>, bones: Labels, cortex: Mask, zero: Labels, last: nat)
    returns (split: Labels, whole: Labels)
    requires last < |ws|
    requires forall j, i | 1 <= j < |ws| && i in Voxels(ws[j].tight) :: 0 <= Value(bones, i) < |ws|
    ensures split == Run(ws, bones, cortex, false, zero, last).out
    ensures whole == Run(ws, bones, cortex, true, zero, last).out
  {
    split, whole := zero, zero;
    var replacedBy := seq(|ws|, _ => 0);
    var bone := 1;
    while bone <= last
      invariant 1 <= bone <= last + 1
      invariant split == Run(ws, bones, cortex, false, zero, bone - 1).out
      invariant whole == Run(ws, bones, cortex, true, zero, bone - 1).out
      invariant replacedBy == Run(ws, bones, cortex, false, zero, bone - 1).replacedBy
      invariant replacedBy == Run(ws, bones, cortex, true, zero, bone - 1).replacedBy
    {
      split, whole, replacedBy := ProcessBoneDual(ws, bones, cortex, zero, bone, ws[bone], split, whole, replacedBy);
      bone := bone + 1;
    }
  }

  /** The zero-filled whole image agrees with itself. */
  lemma ZeroAgrees(whole: Region)
    ensures Agree(Filled(whole, 0), Filled(whole, 0))
  {
  }

  /** The per-bone part of the example on a prepared run: both outputs are
      the folds over bones `1..min(numBones, boneCount)` from a zero image,
      so they cover the image, agree voxel by voxel, and hold only
      background or labels of those bones. */
  method RunBonesDual(s: Settings, f: Filters, p: Prepared, boneCount: nat)
    returns (split: Labels, whole: Labels)
    requires ValidPrepared(s, p)
    requires forall i | i in Voxels(s.whole) :: 0 <= Value(p.bones, i) <= p.numBones
    ensures split == Run(Works(s, f, p), p.bones, p.cortex, false, Filled(s.whole, 0), LastBone(p.numBones, boneCount)).out
    ensures whole == Run(Works(s, f, p), p.bones, p.cortex, true, Filled(s.whole, 0), LastBone(p.numBones, boneCount)).out
    ensures split.Keys == Voxels(s.whole) && Agree(split, whole)
    ensures forall i | i in split :: split[i] == 0 || BoneLabel(split[i], LastBone(p.numBones, boneCount), false)
    ensures forall i | i in whole :: whole[i] == 0 || BoneLabel(whole[i], LastBone(p.numBones, boneCount), true)
  {
    var ws := Works(s, f, p);
    forall j | 1 <= j <= p.numBones
      ensures forall i | i in Voxels(ws[j].tight) :: 0 <= Value(p.bones, i) < |ws|
    {
      TightLabels(s, p, j);
    }
    var zero := Filled(s.whole, 0);
    var last := LastBone(p.numBones, boneCount);
    split, whole := DualLoop(ws, p.bones, p.cortex, zero, last);
    ZeroAgrees(s.whole);
    RunsAgree(ws, p.bones, p.cortex, zero, zero, last);
    RunLabelsInRange(ws, p.bones, p.cortex, false, zero, last);
    RunLabelsInRange(ws, p.bones, p.cortex, true, zero, last);
  }

  /** The example's `mainProcessing` from the filters' outputs onwards.  More
      than 85 bones throws; otherwise both zero-filled outputs are the folds
      over the processed bones of the state `p` the sweeps prepare, so they
      hold only background or labels of those bones, and agree. */
  method MainProcessing(s: Settings, f: Filters, input: Labels, smoothed: Labels, sheetness: Field,
                        bones: Labels, numBones: nat, boneCount: nat)
    returns (r: Result<(Labels, Labels), string>, ghost p: Prepared)
    requires ValidSettings(s)
    requires forall i | i in Voxels(s.whole) :: IndexInRange(i)
    requires forall i | i in Voxels(s.whole) :: 0 <= Value(bones, i) <= numBones
    requires forall b | 1 <= b <= numBones :: Occurs(bones, Voxels(s.whole), b)
    ensures r.Failure? <==> numBones > MaxBones
    ensures r.Success? ==> ValidPrepared(s, p) && PreparedFrom(s, f, input, smoothed, sheetness, bones, numBones, p)
    ensures r.Success? && ValidPrepared(s, p) ==>
      && r.value.0 == Run(Works(s, f, p), p.bones, p.cortex, false, Filled(s.whole, 0), LastBone(p.numBones, boneCount)).out
      && r.value.1 == Run(Works(s, f, p), p.bones, p.cortex, true, Filled(s.whole, 0), LastBone(p.numBones, boneCount)).out
    ensures r.Success? ==> r.value.0.Keys == Voxels(s.whole) && Agree(r.value.0, r.value.1)
    ensures r.Success? ==>
      forall i | i in r.value.0 :: r.value.0[i] == 0 || BoneLabel(r.value.0[i], LastBone(numBones, boneCount), false)
  {
    if numBones > MaxBones {
      return Failure("There are too many bones to fit into uchar"), Prepared(input, map[], bones, map[], [], [], numBones);
    }
    var prepared := Prepare(s, f, input, smoothed, sheetness, bones, numBones);
    var split, whole := RunBonesDual(s, f, prepared, boneCount);
    return Success((split, whole)), prepared;
  }
}
