/** Physical-space points and 3x3 matrices over the reals, as used by the
    landmark code (ITK's `Point<double, 3>`, `Vector`, `Matrix`). */
module Geometry {

  datatype Vec3 = Vec3(x: real, y: real, z: real)

  /** A matrix by rows. */
  datatype Mat3 = Mat3(r0: Vec3, r1: Vec3, r2: Vec3)

  const Zero: Vec3 := Vec3(0.0, 0.0, 0.0)

  function Add(a: Vec3, b: Vec3): Vec3
  {
    Vec3(a.x + b.x, a.y + b.y, a.z + b.z)
  }

  function Sub(a: Vec3, b: Vec3): Vec3
  {
    Vec3(a.x - b.x, a.y - b.y, a.z - b.z)
  }

  function Dot(a: Vec3, b: Vec3): real
  {
    a.x * b.x + a.y * b.y + a.z * b.z
  }

  /** Matrix times column vector. */
  function MulV(m: Mat3, v: Vec3): Vec3
  {
    Vec3(Dot(m.r0, v), Dot(m.r1, v), Dot(m.r2, v))
  }

  function Col(m: Mat3, j: nat): Vec3
    requires j < 3
  {
    Vec3(Coord(m.r0, j), Coord(m.r1, j), Coord(m.r2, j))
  }

  /** Matrix product `a * b`. */
  function MulM(a: Mat3, b: Mat3): Mat3
  {
    Mat3(Vec3(Dot(a.r0, Col(b, 0)), Dot(a.r0, Col(b, 1)), Dot(a.r0, Col(b, 2))),
         Vec3(Dot(a.r1, Col(b, 0)), Dot(a.r1, Col(b, 1)), Dot(a.r1, Col(b, 2))),
         Vec3(Dot(a.r2, Col(b, 0)), Dot(a.r2, Col(b, 1)), Dot(a.r2, Col(b, 2))))
  }

  function Diag(a: real, b: real, c: real): Mat3
  {
    Mat3(Vec3(a, 0.0, 0.0), Vec3(0.0, b, 0.0), Vec3(0.0, 0.0, c))
  }

  const Identity: Mat3 := Diag(1.0, 1.0, 1.0)

  /** Component `d` of a point. */
  function Coord(v: Vec3, d: nat): real
    requires d < 3
  {
    if d == 0 then v.x else if d == 1 then v.y else v.z
  }

  /** A point with component `d` replaced. */
  function With(v: Vec3, d: nat, value: real): (w: Vec3)
    requires d < 3
    ensures Coord(w, d) == value
    ensures forall e | 0 <= e < 3 && e != d :: Coord(w, e) == Coord(v, e)
  {
    if d == 0 then Vec3(value, v.y, v.z) else if d == 1 then Vec3(v.x, value, v.z) else Vec3(v.x, v.y, value)
  }

  /** Matrix-vector product distributes over differences. */
  lemma MulVSub(m: Mat3, a: Vec3, b: Vec3)
    ensures MulV(m, Sub(a, b)) == Sub(MulV(m, a), MulV(m, b))
  {
  }

  /** Matrix-vector product distributes over sums. */
  lemma MulVAdd(m: Mat3, a: Vec3, b: Vec3)
    ensures MulV(m, Add(a, b)) == Add(MulV(m, a), MulV(m, b))
  {
  }

  /** Matrix-vector product is associative with the matrix product. */
  lemma MulMV(a: Mat3, b: Mat3, v: Vec3)
    ensures MulV(MulM(a, b), v) == MulV(a, MulV(b, v))
  {
  }
}
