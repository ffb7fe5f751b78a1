/** The label encoding of the bone segmenter's split output: bone `b` owns
    the three consecutive labels `3b-2` (cortical), `3b-1` (trabecular) and
    `3b` (marrow), and label 0 is background.  The segmenter refuses to run
    with more than 85 bones, so that every label fits in an unsigned char. */
module BoneLabels {

  /** The most bones the segmenter accepts (three labels each, 255 in all). */
  const MaxBones: nat := 85

  datatype Tissue = Cortical | Trabecular | Marrow

  /** The split-output label of a bone's tissue. */
  function SplitLabel(bone: int, t: Tissue): int
  {
    match t
    case Cortical => 3 * bone - 2
    case Trabecular => 3 * bone - 1
    case Marrow => 3 * bone
  }

  /** The bone a non-zero split label belongs to, `(l + 2) / 3`. */
  function BoneOf(l: int): int
  {
    (l + 2) / 3
  }

  /** The tissue a non-zero split label encodes, from `l mod 3`. */
  function TissueOf(l: int): Tissue
  {
    if l % 3 == 1 then Cortical else if l % 3 == 2 then Trabecular else Marrow
  }

  /** Storing an int into an unsigned-char pixel keeps it modulo 256. */
  function StoreUChar(v: int): (u: int)
    ensures 0 <= u < 256
    ensures (u - v) % 256 == 0
  {
    v % 256
  }

  /** Within the limit, a split label is a non-zero byte that decodes back to
      its bone and tissue. */
  lemma DecodeSplitLabel(bone: int, t: Tissue)
    requires 1 <= bone <= MaxBones
    ensures 1 <= SplitLabel(bone, t) <= 255
    ensures StoreUChar(SplitLabel(bone, t)) == SplitLabel(bone, t)
    ensures BoneOf(SplitLabel(bone, t)) == bone
    ensures TissueOf(SplitLabel(bone, t)) == t
  {
  }

  /** Distinct (bone, tissue) pairs get distinct stored labels. */
  lemma SplitLabelsDistinct(b1: int, t1: Tissue, b2: int, t2: Tissue)
    requires 1 <= b1 <= MaxBones && 1 <= b2 <= MaxBones
    requires b1 != b2 || t1 != t2
    ensures StoreUChar(SplitLabel(b1, t1)) != StoreUChar(SplitLabel(b2, t2))
  {
    DecodeSplitLabel(b1, t1);
    DecodeSplitLabel(b2, t2);
  }

  /** The limit is tight: for bone 86 the cortical label would be stored as
      background and the trabecular label as bone 1's cortical label. */
  lemma LimitIsTight()
    ensures StoreUChar(SplitLabel(MaxBones + 1, Cortical)) == 0
    ensures StoreUChar(SplitLabel(MaxBones + 1, Trabecular)) == SplitLabel(1, Cortical)
  {
  }
}
