/** The bounding-box pass of the bone segmenter: one sweep over the whole
    image that keeps, per bone label, the smallest and largest index seen on
    each axis.  Boxes start at the extreme values of ITK's signed 64-bit
    index type, so a label that never occurs keeps its empty box. */
module BoundingBox {
  import opened Grid

  const IndexMax: int := 0x7FFF_FFFF_FFFF_FFFF
  const IndexMin: int := -0x8000_0000_0000_0000

  /** The initial minimum: every component at the largest index value. */
  const Top: Idx := Idx(IndexMax, IndexMax, IndexMax)
  /** The initial maximum: every component at the smallest index value. */
  const Bottom: Idx := Idx(IndexMin, IndexMin, IndexMin)

  predicate IndexInRange(i: Idx)
  {
    && IndexMin <= i.x <= IndexMax
    && IndexMin <= i.y <= IndexMax
    && IndexMin <= i.z <= IndexMax
  }

  /** Component `d` of an index. */
  function Coord(i: Idx, d: nat): int
    requires d < 3
  {
    if d == 0 then i.x else if d == 1 then i.y else i.z
  }

  /** The per-axis update `if (ind[d] < min[d]) min[d] = ind[d]`. */
  function Lower(m: Idx, i: Idx): (r: Idx)
    ensures forall d | 0 <= d < 3 :: Coord(r, d) <= Coord(m, d) && Coord(r, d) <= Coord(i, d)
    ensures forall d | 0 <= d < 3 :: Coord(r, d) == Coord(m, d) || Coord(r, d) == Coord(i, d)
  {
    Idx(if i.x < m.x then i.x else m.x,
        if i.y < m.y then i.y else m.y,
        if i.z < m.z then i.z else m.z)
  }

  /** The per-axis update `if (ind[d] > max[d]) max[d] = ind[d]`. */
  function Upper(m: Idx, i: Idx): (r: Idx)
    ensures forall d | 0 <= d < 3 :: Coord(r, d) >= Coord(m, d) && Coord(r, d) >= Coord(i, d)
    ensures forall d | 0 <= d < 3 :: Coord(r, d) == Coord(m, d) || Coord(r, d) == Coord(i, d)
  {
    Idx(if i.x > m.x then i.x else m.x,
        if i.y > m.y then i.y else m.y,
        if i.z > m.z then i.z else m.z)
  }

  predicate Between(lo: Idx, i: Idx, hi: Idx)
  {
    lo.x <= i.x <= hi.x && lo.y <= i.y <= hi.y && lo.z <= i.z <= hi.z
  }

  /** Label `b` occurs on some voxel of `vs`. */
  ghost predicate Occurs(bones: Labels, vs: set<Idx>, b: int)
  {
    exists j :: j in vs && Value(bones, j) == b
  }

  /** Some voxel of `vs` labelled `b` has coordinate `v` on axis `d`. */
  ghost predicate Attained(bones: Labels, vs: set<Idx>, b: int, d: nat, v: int)
    requires d < 3
  {
    exists j :: j in vs && Value(bones, j) == b && Coord(j, d) == v
  }

  /** What the pass knows after sweeping the voxels `done`. */
  ghost predicate Boxes(bones: Labels, done: set<Idx>, numBones: nat, lo: seq<Idx>, hi: seq<Idx>)
  {
    && |lo| == numBones + 1 && |hi| == numBones + 1
    && (forall b, i | 1 <= b <= numBones && i in done && Value(bones, i) == b :: Between(lo[b], i, hi[b]))
    && (forall b, d | 1 <= b <= numBones && Occurs(bones, done, b) && 0 <= d < 3 ::
          Attained(bones, done, b, d, Coord(lo[b], d)) && Attained(bones, done, b, d, Coord(hi[b], d)))
    && (forall b | 0 <= b <= numBones && (b == 0 || !Occurs(bones, done, b)) :: lo[b] == Top && hi[b] == Bottom)
  }

  /** One step of the sweep keeps `Boxes`. */
  lemma StepKeepsBoxes(bones: Labels, done: set<Idx>, numBones: nat, lo: seq<Idx>, hi: seq<Idx>, i: Idx)
    requires Boxes(bones, done, numBones, lo, hi)
    requires 0 <= Value(bones, i) <= numBones && IndexInRange(i)
    ensures var b := Value(bones, i);
      if b > 0 then Boxes(bones, done + {i}, numBones, lo[b := Lower(lo[b], i)], hi[b := Upper(hi[b], i)])
      else Boxes(bones, done + {i}, numBones, lo, hi)
  {
    var b := Value(bones, i);
    var done' := done + {i};
    if b > 0 {
      var lo', hi' := lo[b := Lower(lo[b], i)], hi[b := Upper(hi[b], i)];
      if !Occurs(bones, done, b) {
        assert lo[b] == Top && hi[b] == Bottom;
        assert Lower(lo[b], i) == i && Upper(hi[b], i) == i;
      }
      StepContains(bones, done, numBones, lo, hi, i, done', lo', hi');
      StepAttains(bones, done, numBones, lo, hi, i, done', lo', hi');
      forall c | 0 <= c <= numBones && (c == 0 || !Occurs(bones, done', c))
        ensures lo'[c] == Top && hi'[c] == Bottom
      {
        assert c != b by { assert i in done'; }
        assert !Occurs(bones, done, c) || c == 0;
      }
    } else {
      forall c, j | 1 <= c <= numBones && j in done' && Value(bones, j) == c
        ensures Between(lo[c], j, hi[c])
      {
        assert j in done;
      }
      forall c, d | 1 <= c <= numBones && Occurs(bones, done', c) && 0 <= d < 3
        ensures Attained(bones, done', c, d, Coord(lo[c], d)) && Attained(bones, done', c, d, Coord(hi[c], d))
      {
        assert Occurs(bones, done, c);
      }
      forall c | 0 <= c <= numBones && (c == 0 || !Occurs(bones, done', c))
        ensures lo[c] == Top && hi[c] == Bottom
      {
        assert !Occurs(bones, done, c) || c == 0;
      }
    }
  }

  lemma StepContains(bones: Labels, done: set<Idx>, numBones: nat, lo: seq<Idx>, hi: seq<Idx>, i: Idx,
                     done': set<Idx>, lo': seq<Idx>, hi': seq<Idx>)
    requires Boxes(bones, done, numBones, lo, hi)
    requires 0 < Value(bones, i) <= numBones
    requires done' == done + {i}
    requires lo' == lo[Value(bones, i) := Lower(lo[Value(bones, i)], i)]
    requires hi' == hi[Value(bones, i) := Upper(hi[Value(bones, i)], i)]
    ensures forall c, j | 1 <= c <= numBones && j in done' && Value(bones, j) == c :: Between(lo'[c], j, hi'[c])
  {
  }

  lemma StepAttains(bones: Labels, done: set<Idx>, numBones: nat, lo: seq<Idx>, hi: seq<Idx>, i: Idx,
                    done': set<Idx>, lo': seq<Idx>, hi': seq<Idx>)
    requires Boxes(bones, done, numBones, lo, hi)
    requires 0 < Value(bones, i) <= numBones && IndexInRange(i)
    requires done' == done + {i}
    requires lo' == lo[Value(bones, i) := Lower(lo[Value(bones, i)], i)]
    requires hi' == hi[Value(bones, i) := Upper(hi[Value(bones, i)], i)]
    ensures forall c, d | 1 <= c <= numBones && Occurs(bones, done', c) && 0 <= d < 3 ::
      Attained(bones, done', c, d, Coord(lo'[c], d)) && Attained(bones, done', c, d, Coord(hi'[c], d))
  {
    var b := Value(bones, i);
    forall c, d | 1 <= c <= numBones && Occurs(bones, done', c) && 0 <= d < 3
      ensures Attained(bones, done', c, d, Coord(lo'[c], d)) && Attained(bones, done', c, d, Coord(hi'[c], d))
    {
      if c != b {
        assert Occurs(bones, done, c);
        assert Attained(bones, done, c, d, Coord(lo[c], d));
        assert Attained(bones, done, c, d, Coord(hi[c], d));
      } else if Occurs(bones, done, b) {
        assert Attained(bones, done, b, d, Coord(lo[b], d));
        assert Attained(bones, done, b, d, Coord(hi[b], d));
        assert i in done';
      } else {
        assert lo[b] == Top && hi[b] == Bottom;
        assert Coord(lo'[b], d) == Coord(i, d) && Coord(hi'[b], d) == Coord(i, d);
        assert i in done';
      }
    }
  }

  /** One voxel of the sweep: a bone voxel widens its label's box. */
  method Visit(bones: Labels, numBones: nat, lo: seq<Idx>, hi: seq<Idx>, i: Idx, ghost done: set<Idx>)
    returns (lo': seq<Idx>, hi': seq<Idx>)
    requires Boxes(bones, done, numBones, lo, hi)
    requires 0 <= Value(bones, i) <= numBones && IndexInRange(i)
    ensures Boxes(bones, done + {i}, numBones, lo', hi')
  {
    var b := Value(bones, i);
    StepKeepsBoxes(bones, done, numBones, lo, hi, i);
    lo', hi' := lo, hi;
    if b > 0 {
      lo' := lo[b := Lower(lo[b], i)];
      hi' := hi[b := Upper(hi[b], i)];
    }
  }

  /** Sweeps the voxels `todo` after those in `done`. */
  method Sweep(bones: Labels, numBones: nat, todo: set<Idx>, lo: seq<Idx>, hi: seq<Idx>, ghost done: set<Idx>)
    returns (lo': seq<Idx>, hi': seq<Idx>)
    requires Boxes(bones, done, numBones, lo, hi)
    requires forall i | i in todo :: 0 <= Value(bones, i) <= numBones && IndexInRange(i)
    ensures Boxes(bones, done + todo, numBones, lo', hi')
  {
    lo', hi' := lo, hi;
    var rest := todo;
    ghost var seen := done;
    while rest != {}
      invariant rest <= todo && seen + rest == done + todo
      invariant Boxes(bones, seen, numBones, lo', hi')
      decreases |rest|
    {
      var i :| i in rest;
      lo', hi' := Visit(bones, numBones, lo', hi', i, seen);
      rest := rest - {i};
      seen := seen + {i};
    }
  }

  /** The bounding-box pass over `region`.  For every bone label `b` in
      `1..numBones`: every voxel labelled `b` lies in the box, each face of
      the box is attained by such a voxel, and a label that does not occur
      (including the background label 0) keeps the initial empty box. */
  method BoneBoxes(bones: Labels, region: Region, numBones: nat) returns (lo: seq<Idx>, hi: seq<Idx>)
    requires forall i | i in Voxels(region) :: 0 <= Value(bones, i) <= numBones
    requires forall i | i in Voxels(region) :: IndexInRange(i)
    ensures Boxes(bones, Voxels(region), numBones, lo, hi)
    ensures |lo| == numBones + 1 && |hi| == numBones + 1
    ensures forall b, i | 1 <= b <= numBones && i in Voxels(region) && Value(bones, i) == b :: Between(lo[b], i, hi[b])
    ensures forall b, d | 1 <= b <= numBones && Occurs(bones, Voxels(region), b) && 0 <= d < 3 ::
      Attained(bones, Voxels(region), b, d, Coord(lo[b], d)) && Attained(bones, Voxels(region), b, d, Coord(hi[b], d))
    ensures forall b | 0 <= b <= numBones && (b == 0 || !Occurs(bones, Voxels(region), b)) :: lo[b] == Top && hi[b] == Bottom
  {
    lo, hi := Sweep(bones, numBones, Voxels(region), seq(numBones + 1, _ => Top), seq(numBones + 1, _ => Bottom), {});
    assert {} + Voxels(region) == Voxels(region);
  }
  /** The boxes are determined by what `Boxes` says of them: each face of an
      occurring bone's box is the extreme coordinate of its voxels, and
      every other box is the initial empty one. */
  lemma BoxesUnique(bones: Labels, vs: set<Idx>, numBones: nat, lo: seq<Idx>, hi: seq<Idx>, lo': seq<Idx>, hi': seq<Idx>)
    requires Boxes(bones, vs, numBones, lo, hi) && Boxes(bones, vs, numBones, lo', hi')
    ensures lo == lo' && hi == hi'
  {
    forall b | 0 <= b <= numBones
      ensures lo[b] == lo'[b] && hi[b] == hi'[b]
    {
      if b != 0 && Occurs(bones, vs, b) {
        forall d | 0 <= d < 3
          ensures Coord(lo[b], d) == Coord(lo'[b], d) && Coord(hi[b], d) == Coord(hi'[b], d)
        {
          FaceIsExtreme(bones, vs, numBones, lo, hi, lo', hi', b, d);
          FaceIsExtreme(bones, vs, numBones, lo', hi', lo, hi, b, d);
        }
        SameCoords(lo[b], lo'[b]);
        SameCoords(hi[b], hi'[b]);
      }
    }
  }

  /** An attained face of one box lies within any other box that holds
      every voxel of the bone. */
  lemma FaceIsExtreme(bones: Labels, vs: set<Idx>, numBones: nat, lo: seq<Idx>, hi: seq<Idx>, lo': seq<Idx>, hi': seq<Idx>, b: nat, d: nat)
    requires Boxes(bones, vs, numBones, lo, hi) && Boxes(bones, vs, numBones, lo', hi')
    requires 1 <= b <= numBones && Occurs(bones, vs, b) && d < 3
    ensures Coord(lo'[b], d) <= Coord(lo[b], d) && Coord(hi[b], d) <= Coord(hi'[b], d)
  {
    assert Attained(bones, vs, b, d, Coord(lo[b], d));
    var j :| j in vs && Value(bones, j) == b && Coord(j, d) == Coord(lo[b], d);
    assert Between(lo'[b], j, hi'[b]);
    assert Attained(bones, vs, b, d, Coord(hi[b], d));
    var k :| k in vs && Value(bones, k) == b && Coord(k, d) == Coord(hi[b], d);
    assert Between(lo'[b], k, hi'[b]);
  }

  lemma SameCoords(i: Idx, j: Idx)
    requires forall d | 0 <= d < 3 :: Coord(i, d) == Coord(j, d)
    ensures i == j
  {
    assert Coord(i, 0) == Coord(j, 0) && Coord(i, 1) == Coord(j, 1) && Coord(i, 2) == Coord(j, 2);
  }
}
