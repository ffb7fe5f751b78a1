/** Landmark handling around registration: the "exactly three landmarks"
    check, the first-landmark pinning of the landmark-initialised rigid
    transform, the embedding of the rigid transform into an affine one, the
    optimizer scale vectors and the Python laterality mirror.

    A transform is ITK's `MatrixOffsetTransformBase` state: centre, matrix,
    translation and offset, with `T(x) = M x + offset` and the offset kept
    equal to `t + c - M c` by every setter, so that
    `T(x) = M (x - c) + c + t`.  The landmark initialiser and the optimizers
    stay outside the model; the rotation the initialiser finds is a
    parameter. */
module Landmarks {
  import opened Wrappers
  import opened Geometry

  datatype Transform = Transform(center: Vec3, matrix: Mat3, translation: Vec3, offset: Vec3)

  /** `ComputeOffset`: `t + c - M c`. */
  function OffsetOf(c: Vec3, m: Mat3, t: Vec3): Vec3
  {
    Sub(Add(t, c), MulV(m, c))
  }

  /** `ComputeTranslation`: `offset - c + M c`. */
  function TranslationOf(c: Vec3, m: Mat3, o: Vec3): Vec3
  {
    Add(Sub(o, c), MulV(m, c))
  }

  /** The offset agrees with centre, matrix and translation. */
  predicate Consistent(a: Transform)
  {
    a.offset == OffsetOf(a.center, a.matrix, a.translation)
  }

  /** `TransformPoint`. */
  function Map(a: Transform, x: Vec3): Vec3
  {
    Add(MulV(a.matrix, x), a.offset)
  }

  /** The centred form of a consistent transform. */
  lemma MapCentred(a: Transform, x: Vec3)
    requires Consistent(a)
    ensures Map(a, x) == Add(Add(MulV(a.matrix, Sub(x, a.center)), a.center), a.translation)
  {
    MulVSub(a.matrix, x, a.center);
  }

  /** A new transform: the identity. */
  const NewTransform: Transform := Transform(Zero, Identity, Zero, Zero)

  function SetCenter(a: Transform, c: Vec3): (b: Transform)
    ensures b.center == c && b.matrix == a.matrix && b.translation == a.translation && Consistent(b)
  {
    a.(center := c, offset := OffsetOf(c, a.matrix, a.translation))
  }

  function SetTranslation(a: Transform, t: Vec3): (b: Transform)
    ensures b.center == a.center && b.matrix == a.matrix && b.translation == t && Consistent(b)
  {
    a.(translation := t, offset := OffsetOf(a.center, a.matrix, t))
  }

  function SetMatrix(a: Transform, m: Mat3): (b: Transform)
    ensures b.center == a.center && b.matrix == m && b.translation == a.translation && Consistent(b)
  {
    a.(matrix := m, offset := OffsetOf(a.center, m, a.translation))
  }

  /** `SetOffset` keeps the centre and matrix and recomputes the
      translation, so the offset it is given is the one the transform uses. */
  function SetOffset(a: Transform, o: Vec3): (b: Transform)
    ensures b.center == a.center && b.matrix == a.matrix && b.offset == o && Consistent(b)
  {
    a.(offset := o, translation := TranslationOf(a.center, a.matrix, o))
  }

  // ------------------------------------------------------------ checks

  const InputCountMessage: string := "There must be exactly 3 input landmarks"
  const AtlasCountMessage: string := "There must be exactly 3 atlas landmarks"

  /** The two `itkAssertOrThrowMacro`s: the input list is checked first. */
  function RequireThree(input: seq<Vec3>, atlas: seq<Vec3>): (r: Result<(), string>)
    ensures r.Success? <==> |input| == 3 && |atlas| == 3
    ensures r.Failure? ==> r.error == (if |input| != 3 then InputCountMessage else AtlasCountMessage)
  {
    if |input| != 3 then Failure(InputCountMessage)
    else if |atlas| != 3 then Failure(AtlasCountMessage)
    else Success(())
  }

  // ---------------------------------------------------------- pinning

  /** Rotation about `fixed0`, translated so that `fixed0` lands on
      `moving0`: `SetCenter(fixed0)` then `SetTranslation(moving0 - fixed0)`
      on the transform the landmark initialiser produced. */
  function Pin(init: Transform, fixed0: Vec3, moving0: Vec3): (t: Transform)
    ensures t.center == fixed0 && t.matrix == init.matrix && t.translation == Sub(moving0, fixed0)
    ensures Consistent(t)
  {
    SetTranslation(SetCenter(init, fixed0), Sub(moving0, fixed0))
  }

  /** Whatever rotation the initialiser found, the pinned transform maps the
      first fixed landmark exactly onto the first moving one. */
  lemma PinMapsFirstLandmark(init: Transform, fixed0: Vec3, moving0: Vec3)
    ensures Map(Pin(init, fixed0, moving0), fixed0) == moving0
  {
    MapCentred(Pin(init, fixed0, moving0), fixed0);
  }

  /** The pinned transform rotates about the first fixed landmark: every
      point is moved by the rotation of its offset from that landmark. */
  lemma PinRotatesAboutFirstLandmark(init: Transform, fixed0: Vec3, moving0: Vec3, x: Vec3)
    ensures Sub(Map(Pin(init, fixed0, moving0), x), moving0) == MulV(init.matrix, Sub(x, fixed0))
  {
    MapCentred(Pin(init, fixed0, moving0), x);
  }

  /** The label-transfer program and its filter port: input landmarks are
      fixed, atlas landmarks moving; `init` is the initialised transform. */
  function InputToAtlas(input: seq<Vec3>, atlas: seq<Vec3>, init: Transform): (r: Result<Transform, string>)
    ensures r.Success? <==> |input| == 3 && |atlas| == 3
    ensures r.Failure? ==> r.error == RequireThree(input, atlas).error
    ensures r.Success? ==> r.value.center == input[0] && Map(r.value, input[0]) == atlas[0]
  {
    var _ :- RequireThree(input, atlas);
    PinMapsFirstLandmark(init, input[0], atlas[0]);
    Success(Pin(init, input[0], atlas[0]))
  }

  /** The pose-mesh program and the example label-transfer program: the
      roles are swapped, the atlas (pose) landmarks are fixed. */
  function AtlasToInput(input: seq<Vec3>, atlas: seq<Vec3>, init: Transform): (r: Result<Transform, string>)
    ensures r.Success? <==> |input| == 3 && |atlas| == 3
    ensures r.Failure? ==> r.error == RequireThree(input, atlas).error
    ensures r.Success? ==> r.value.center == atlas[0] && Map(r.value, atlas[0]) == input[0]
  {
    var _ :- RequireThree(input, atlas);
    PinMapsFirstLandmark(init, atlas[0], input[0]);
    Success(Pin(init, atlas[0], input[0]))
  }

  /** The error ITK's `LandmarkBasedTransformInitializer` raises when the
      fixed and moving lists differ in length. */
  const LandmarkCountMismatch: string := "Different number of fixed and moving landmarks"

  /** Python's `register_landmarks(atlas_landmarks, input_landmarks)`: the
      first argument is fixed.  `InitializeTransform` runs first and rejects
      lists of different lengths; the script itself checks no count, so two
      empty lists get as far as `atlas_landmarks[0]` and raise `IndexError`. */
  function RegisterLandmarks(atlasLandmarks: seq<Vec3>, inputLandmarks: seq<Vec3>, init: Transform)
    : (r: Result<Transform, string>)
    ensures r.Success? <==> |atlasLandmarks| > 0 && |atlasLandmarks| == |inputLandmarks|
    ensures |atlasLandmarks| != |inputLandmarks| ==> r == Failure(LandmarkCountMismatch)
    ensures r.Success? ==> r.value.center == atlasLandmarks[0] && Map(r.value, atlasLandmarks[0]) == inputLandmarks[0]
  {
    if |atlasLandmarks| != |inputLandmarks| then Failure(LandmarkCountMismatch)
    else if |atlasLandmarks| == 0 then Failure("IndexError")
    else
      PinMapsFirstLandmark(init, atlasLandmarks[0], inputLandmarks[0]);
      Success(Pin(init, atlasLandmarks[0], inputLandmarks[0]))
  }

  /** The two role orders give transforms that undo each other on the first
      landmarks: one maps `a[0]` to `b[0]`, the other `b[0]` to `a[0]`. */
  lemma RoleOrdersSwapFirstLandmarks(a: seq<Vec3>, b: seq<Vec3>, init: Transform)
    requires |a| == 3 && |b| == 3
    ensures Map(InputToAtlas(a, b, init).value, a[0]) == b[0]
    ensures Map(AtlasToInput(a, b, init).value, b[0]) == a[0]
  {
  }

  // --------------------------------------------------- rigid to affine

  /** The C++ affine initialisation: `SetCenter`, `SetTranslation`,
      `SetMatrix` from the rigid transform, on a new transform. */
  function AffineFromRigid(rigid: Transform): (a: Transform)
    ensures a.center == rigid.center && a.matrix == rigid.matrix && a.translation == rigid.translation
    ensures Consistent(a)
  {
    SetMatrix(SetTranslation(SetCenter(NewTransform, rigid.center), rigid.translation), rigid.matrix)
  }

  /** The Python export: `SetCenter`, `SetMatrix`, `SetOffset`. */
  function AffineFromRigidByOffset(rigid: Transform): (a: Transform)
    ensures a.center == rigid.center && a.matrix == rigid.matrix && a.offset == rigid.offset
    ensures Consistent(a)
  {
    SetOffset(SetMatrix(SetCenter(NewTransform, rigid.center), rigid.matrix), rigid.offset)
  }

  /** Both embeddings map every point exactly as the rigid transform does. */
  lemma AffineMapsLikeRigid(rigid: Transform, x: Vec3)
    requires Consistent(rigid)
    ensures Map(AffineFromRigid(rigid), x) == Map(rigid, x)
    ensures Map(AffineFromRigidByOffset(rigid), x) == Map(rigid, x)
    ensures AffineFromRigidByOffset(rigid) == AffineFromRigid(rigid)
  {
    var a := AffineFromRigidByOffset(rigid);
    assert a.translation == TranslationOf(rigid.center, rigid.matrix, rigid.offset);
    assert a.translation == rigid.translation;
  }

  // ------------------------------------------------------ laterality

  /** The laterality changer: a `Rigid3DTransform` whose parameter 8 (the
      last matrix entry) is set to -1, a mirror along the third axis. */
  const Inverter: Transform := Transform(Zero, Diag(1.0, 1.0, -1.0), Zero, Zero)

  /** `Compose(other)` with `pre` false: apply `a`, then `other`. */
  function Compose(a: Transform, other: Transform): (b: Transform)
    ensures b.center == a.center && b.matrix == MulM(other.matrix, a.matrix)
    ensures Consistent(b)
  {
    var m := MulM(other.matrix, a.matrix);
    var o := Add(MulV(other.matrix, a.offset), other.offset);
    Transform(a.center, m, TranslationOf(a.center, m, o), o)
  }

  /** The composed transform is the composition of the maps. */
  lemma ComposeMaps(a: Transform, other: Transform, x: Vec3)
    ensures Map(Compose(a, other), x) == Map(other, Map(a, x))
  {
    var ax := MulV(a.matrix, x);
    MulMV(other.matrix, a.matrix, x);
    MulVAdd(other.matrix, ax, a.offset);
    assert Map(other, Map(a, x)) == Add(Add(MulV(other.matrix, ax), MulV(other.matrix, a.offset)), other.offset);
  }

  /** The mirror negates the third coordinate and is its own inverse. */
  lemma InverterMirrors(x: Vec3)
    ensures Map(Inverter, x) == Vec3(x.x, x.y, -x.z)
    ensures Map(Inverter, Map(Inverter, x)) == x
  {
  }

  /** `case[-1] != atlas[-1]`: the last letters (L or R) differ.  Indexing
      an empty name raises `IndexError`. */
  function LateralityDiffers(caseName: string, atlasName: string): (r: Result<bool, string>)
    ensures r.Success? <==> |caseName| > 0 && |atlasName| > 0
    ensures r.Success? ==> (r.value <==> caseName[|caseName| - 1] != atlasName[|atlasName| - 1])
  {
    if |caseName| == 0 || |atlasName| == 0 then Failure("IndexError")
    else Success(caseName[|caseName| - 1] != atlasName[|atlasName| - 1])
  }

  /** `process_case` up to the exported affine: the case landmarks are fixed,
      the pose landmarks moving; the mirror is composed when the lateralities
      differ; the export copies centre, matrix and offset. */
  function PoseToCase(caseLandmarks: seq<Vec3>, pose: seq<Vec3>, init: Transform, caseName: string, atlasName: string)
    : (r: Result<Transform, string>)
    ensures r.Success? <==> |caseLandmarks| > 0 && |caseLandmarks| == |pose| && |caseName| > 0 && |atlasName| > 0
    ensures |caseLandmarks| != |pose| ==> r == Failure(LandmarkCountMismatch)
  {
    var t :- RegisterLandmarks(caseLandmarks, pose, init);
    var flip :- LateralityDiffers(caseName, atlasName);
    var t' := if flip then Compose(t, Inverter) else t;
    Success(AffineFromRigidByOffset(t'))
  }

  /** The exported transform sends the first case landmark to the first
      pose landmark, mirrored along the third axis exactly when the names'
      last letters differ. */
  lemma PoseToCaseFirstLandmark(caseLandmarks: seq<Vec3>, pose: seq<Vec3>, init: Transform, caseName: string,
                                atlasName: string)
    requires PoseToCase(caseLandmarks, pose, init, caseName, atlasName).Success?
    ensures var p := pose[0];
      Map(PoseToCase(caseLandmarks, pose, init, caseName, atlasName).value, caseLandmarks[0]) ==
        if caseName[|caseName| - 1] != atlasName[|atlasName| - 1] then Vec3(p.x, p.y, -p.z) else p
  {
    var t := RegisterLandmarks(caseLandmarks, pose, init).value;
    var flip := caseName[|caseName| - 1] != atlasName[|atlasName| - 1];
    var t' := if flip then Compose(t, Inverter) else t;
    AffineMapsLikeRigid(t', caseLandmarks[0]);
    if flip {
      ComposeMaps(t, Inverter, caseLandmarks[0]);
      InverterMirrors(pose[0]);
    }
  }

  // ------------------------------------------------- optimizer scales

  /** The translation scale `1 / (1000 * avgSpacing)`; `avgSpacing` is the
      geometric mean of the voxel spacings, computed outside the model. */
  function TranslationScale(avgSpacing: real): real
    requires avgSpacing > 0.0
  {
    1.0 / (1000.0 * avgSpacing)
  }

  /** A versor-rigid transform's parameters: the versor's vector part, then
      the translation. */
  function RigidParameters(versor: Vec3, t: Vec3): (ps: seq<real>)
    ensures |ps| == 6
  {
    [versor.x, versor.y, versor.z, t.x, t.y, t.z]
  }

  /** An affine transform's parameters: the matrix by rows, then the
      translation. */
  function AffineParameters(a: Transform): (ps: seq<real>)
    ensures |ps| == 12
  {
    [a.matrix.r0.x, a.matrix.r0.y, a.matrix.r0.z,
     a.matrix.r1.x, a.matrix.r1.y, a.matrix.r1.z,
     a.matrix.r2.x, a.matrix.r2.y, a.matrix.r2.z,
     a.translation.x, a.translation.y, a.translation.z]
  }

  /** The rigid stage's scales. */
  function RigidScales(avgSpacing: real): (s: seq<real>)
    requires avgSpacing > 0.0
    ensures |s| == 6
  {
    var ts := TranslationScale(avgSpacing);
    [1.0, 1.0, 1.0, ts, ts, ts]
  }

  /** The affine stage's scales. */
  function AffineScales(avgSpacing: real): (s: seq<real>)
    requires avgSpacing > 0.0
    ensures |s| == 12
  {
    var ts := TranslationScale(avgSpacing);
    [1.0, 1.0, 1.0, 1.0, 1.0, 1.0, 1.0, 1.0, 1.0, ts, ts, ts]
  }

  /** The B-spline stage's scales: all one. */
  function BSplineScales(n: nat): (s: seq<real>)
    ensures |s| == n && forall k | 0 <= k < n :: s[k] == 1.0
  {
    seq(n, _ => 1.0)
  }

  /** Each scale vector matches its transform's parameter layout: the
      translation scale sits exactly on the translation parameters, one on
      every rotation or matrix parameter. */
  lemma ScalesFollowLayout(avgSpacing: real, versor: Vec3, a: Transform, d: nat)
    requires avgSpacing > 0.0 && d < 3
    ensures RigidParameters(versor, a.translation)[3 + d] == Coord(a.translation, d)
    ensures AffineParameters(a)[9 + d] == Coord(a.translation, d)
    ensures forall k | 0 <= k < 6 :: RigidScales(avgSpacing)[k] == if k >= 3 then TranslationScale(avgSpacing) else 1.0
    ensures forall k | 0 <= k < 12 :: AffineScales(avgSpacing)[k] == if k >= 9 then TranslationScale(avgSpacing) else 1.0
    ensures TranslationScale(avgSpacing) > 0.0
  {
  }
}
