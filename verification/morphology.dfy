/** Morphology through a distance map, as the bone segmenter does it: the
    signed squared distance transform is left abstract, and dilation and
    erosion are thresholds of it at the squared radius. */
module Morphology {
  import opened Grid

  /** A signed squared Maurer distance transform (negative inside the
      object, positive outside).  Its internals are not modelled. */
  type DistanceMap = Mask -> Field

  /** Logical negation of a mask, voxel by voxel (`NotImageFilter`). */
  function Not(m: Mask): (n: Mask)
    ensures n.Keys == m.Keys
    ensures forall i :: i in n ==> (n[i] <==> !m[i])
  {
    map i | i in m :: !m[i]
  }

  /** A binary threshold with only its upper bound set. */
  function AtMost(f: Field, upper: real): (m: Mask)
    ensures m.Keys == f.Keys
    ensures forall i :: i in m ==> (m[i] <==> f[i] <= upper)
  {
    map i | i in f :: f[i] <= upper
  }

  /** A binary threshold with only its lower bound set. */
  function AtLeast(f: Field, lower: real): (m: Mask)
    ensures m.Keys == f.Keys
    ensures forall i :: i in m ==> (m[i] <==> lower <= f[i])
  {
    map i | i in f :: lower <= f[i]
  }

  /** `SDFDilate`: the voxels whose squared distance to the object is at most
      the squared radius. */
  function Dilate(sdf: DistanceMap, m: Mask, radius: real): (d: Mask)
    ensures d.Keys == sdf(m).Keys
    ensures forall i :: i in d ==> (d[i] <==> sdf(m)[i] <= radius * radius)
  {
    AtMost(sdf(m), radius * radius)
  }

  /** `SDFErode`: the voxels whose squared distance to the complement is at
      least the squared radius.  The mask is negated first because Maurer
      distances are not symmetric about the boundary. */
  function Erode(sdf: DistanceMap, m: Mask, radius: real): (e: Mask)
    ensures e.Keys == sdf(Not(m)).Keys
    ensures forall i :: i in e ==> (e[i] <==> radius * radius <= sdf(Not(m))[i])
  {
    AtLeast(sdf(Not(m)), radius * radius)
  }

  /** A larger dilation radius never loses a voxel. */
  lemma DilateGrowsWithRadius(sdf: DistanceMap, m: Mask, r1: real, r2: real, i: Idx)
    requires 0.0 <= r1 <= r2
    requires On(Dilate(sdf, m, r1), i)
    ensures On(Dilate(sdf, m, r2), i)
  {
    assert r1 * r1 <= r2 * r2 by { MulMono(r1, r2); }
  }

  /** A larger erosion radius never gains a voxel. */
  lemma ErodeShrinksWithRadius(sdf: DistanceMap, m: Mask, r1: real, r2: real, i: Idx)
    requires 0.0 <= r1 <= r2
    requires On(Erode(sdf, m, r2), i)
    ensures On(Erode(sdf, m, r1), i)
  {
    assert r1 * r1 <= r2 * r2 by { MulMono(r1, r2); }
  }

  lemma MulMono(a: real, b: real)
    requires 0.0 <= a <= b
    ensures a * a <= b * b
  {
    assert a * a <= a * b;
    assert a * b <= b * b;
  }
}
