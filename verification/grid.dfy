/** Voxel grids as the segmentation and label-transfer code sees them: an
    index triple, a box-shaped region (start index plus per-axis size, as an
    ITK `ImageRegion`), and volumes as finite maps from indices to pixel
    values.  A voxel outside a volume's map reads as the pixel type's zero,
    which is how a zero-padded or zero-allocated ITK image behaves. */
module Grid {
  import opened Wrappers

  /** A three-dimensional voxel index. */
  datatype Idx = Idx(x: int, y: int, z: int)

  /** A box of voxels: `index` is the first voxel, `size` the extent per axis. */
  datatype Region = Region(index: Idx, size: Idx)

  /** Sizes are unsigned in ITK. */
  predicate WellFormed(r: Region)
  {
    r.size.x >= 0 && r.size.y >= 0 && r.size.z >= 0
  }

  predicate InRegion(r: Region, i: Idx)
  {
    && r.index.x <= i.x < r.index.x + r.size.x
    && r.index.y <= i.y < r.index.y + r.size.y
    && r.index.z <= i.z < r.index.z + r.size.z
  }

  /** Region `a` lies inside region `b` (every voxel of `a` is a voxel of `b`). */
  ghost predicate Within(a: Region, b: Region)
  {
    forall i :: InRegion(a, i) ==> InRegion(b, i)
  }

  /** The voxels of a region, as a finite set. */
  function Voxels(r: Region): (s: set<Idx>)
    ensures forall i :: i in s <==> InRegion(r, i)
  {
    var s := set x: int, y: int, z: int
      | && r.index.x <= x < r.index.x + r.size.x
        && r.index.y <= y < r.index.y + r.size.y
        && r.index.z <= z < r.index.z + r.size.z
      :: Idx(x, y, z);
    assert forall i | InRegion(r, i) :: Idx(i.x, i.y, i.z) in s;
    s
  }

  type Mask = map<Idx, bool>
  type Labels = map<Idx, int>
  type Field = map<Idx, real>

  /** Reads a mask; voxels outside it are background. */
  function On(m: Mask, i: Idx): bool
  {
    i in m && m[i]
  }

  /** Reads a label or intensity volume; voxels outside it read as 0. */
  function Value(m: Labels, i: Idx): int
  {
    if i in m then m[i] else 0
  }

  /** Reads a real-valued volume (a distance map); voxels outside read as 0. */
  function Real(m: Field, i: Idx): real
  {
    if i in m then m[i] else 0.0
  }

  /** A volume allocated on region `r` and filled with `v`
      (`Allocate(true)` / `FillBuffer(v)`). */
  function Filled<T>(r: Region, v: T): (m: map<Idx, T>)
    ensures m.Keys == Voxels(r)
    ensures forall i :: i in m ==> m[i] == v
  {
    map i | i in Voxels(r) :: v
  }

  /** One region-iterator pass: every voxel of `r` that the volume holds and
      for which `write` yields a value takes that value; all other voxels keep
      theirs.  This is the shape of every per-voxel loop of the segmenter. */
  function Overwrite<T>(vol: map<Idx, T>, r: Region, write: Idx -> Option<T>): (m: map<Idx, T>)
    ensures m.Keys == vol.Keys
  {
    map i | i in vol :: if InRegion(r, i) && write(i).Some? then write(i).value else vol[i]
  }

  /** One axis of `ImageRegion::Crop`: first raise the start to the bound's
      start (shrinking the size by the same amount), then cut the end back to
      the bound's end.  Only called once the crop is known to be possible. */
  function CropAxis(lo: int, size: int, blo: int, bsize: int): (r: (int, int))
    requires size >= 0 && bsize >= 0
    requires lo < blo + bsize && blo < lo + size
    ensures r.1 >= 0
    ensures r.0 >= lo && r.0 >= blo && (r.0 == lo || r.0 == blo)
    ensures r.0 + r.1 <= lo + size && r.0 + r.1 <= blo + bsize
    ensures r.0 + r.1 == lo + size || r.0 + r.1 == blo + bsize
  {
    var lo1 := if lo < blo then blo else lo;
    var size1 := if lo < blo then size - (blo - lo) else size;
    var size2 := if lo1 + size1 > blo + bsize then size1 - (lo1 + size1 - blo - bsize) else size1;
    (lo1, size2)
  }

  /** Cropping is possible unless, on some axis, one region ends before the
      other starts. */
  predicate Overlap(a: Region, b: Region)
  {
    && a.index.x < b.index.x + b.size.x && b.index.x < a.index.x + a.size.x
    && a.index.y < b.index.y + b.size.y && b.index.y < a.index.y + a.size.y
    && a.index.z < b.index.z + b.size.z && b.index.z < a.index.z + a.size.z
  }

  /** `a.Crop(b)`: the intersection of `a` with `b` when they overlap; `a`
      unchanged otherwise (ITK then returns false, which callers ignore). */
  function Crop(a: Region, b: Region): (c: Region)
    requires WellFormed(a) && WellFormed(b)
    ensures WellFormed(c)
    ensures Overlap(a, b) ==> forall i :: InRegion(c, i) <==> InRegion(a, i) && InRegion(b, i)
    ensures !Overlap(a, b) ==> c == a
  {
    if !Overlap(a, b) then a
    else
      var (x, sx) := CropAxis(a.index.x, a.size.x, b.index.x, b.size.x);
      var (y, sy) := CropAxis(a.index.y, a.size.y, b.index.y, b.size.y);
      var (z, sz) := CropAxis(a.index.z, a.size.z, b.index.z, b.size.z);
      Region(Idx(x, y, z), Idx(sx, sy, sz))
  }

  predicate NonNegative(v: Idx)
  {
    v.x >= 0 && v.y >= 0 && v.z >= 0
  }

  /** `PadByRadius`: grow a region by `pad` voxels on both sides of each axis. */
  function PadByRadius(r: Region, pad: Idx): (p: Region)
    requires NonNegative(pad)
    ensures WellFormed(r) ==> WellFormed(p)
    ensures forall i :: InRegion(p, i) <==>
      && r.index.x - pad.x <= i.x < r.index.x + r.size.x + pad.x
      && r.index.y - pad.y <= i.y < r.index.y + r.size.y + pad.y
      && r.index.z - pad.z <= i.z < r.index.z + r.size.z + pad.z
  {
    Region(Idx(r.index.x - pad.x, r.index.y - pad.y, r.index.z - pad.z),
           Idx(r.size.x + 2 * pad.x, r.size.y + 2 * pad.y, r.size.z + 2 * pad.z))
  }

  /** `ZeroPad` (a constant pad filter): a mask buffered on `r` is re-buffered
      on `r` padded by `pad`; voxels of `r` keep their value, the new band is
      background. */
  function ZeroPad(m: Mask, r: Region, pad: Idx): (p: Mask)
    requires NonNegative(pad)
    ensures p.Keys == Voxels(PadByRadius(r, pad))
    ensures forall i :: InRegion(r, i) ==> i in p && p[i] == On(m, i)
    ensures forall i :: i in p && !InRegion(r, i) ==> !p[i]
  {
    map i | i in Voxels(PadByRadius(r, pad)) :: InRegion(r, i) && On(m, i)
  }
}
