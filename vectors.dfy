/** Three-component real vectors: normals, camera rays and 3D points. */
module Vectors {

  datatype Vec3 = Vec3(x: real, y: real, z: real)

  /** A 3×3 matrix given by its rows. */
  datatype Mat3 = Mat3(r0: Vec3, r1: Vec3, r2: Vec3)

  function Dot(a: Vec3, b: Vec3): real
  {
    a.x * b.x + a.y * b.y + a.z * b.z
  }

  /** The matrix-vector product m · v. */
  function Apply(m: Mat3, v: Vec3): Vec3
  {
    Vec3(Dot(m.r0, v), Dot(m.r1, v), Dot(m.r2, v))
  }

  /** Each component of v multiplied by s. */
  function Scale(v: Vec3, s: real): Vec3
  {
    Vec3(v.x * s, v.y * s, v.z * s)
  }

  /** Scaling the second vector scales the dot product. */
  lemma {:induction false} DotScale(a: Vec3, v: Vec3, s: real)
    ensures Dot(a, Scale(v, s)) == Dot(a, v) * s
  {
    assert a.x * (v.x * s) == (a.x * v.x) * s;
    assert a.y * (v.y * s) == (a.y * v.y) * s;
    assert a.z * (v.z * s) == (a.z * v.z) * s;
  }
}
