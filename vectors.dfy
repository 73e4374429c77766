/** Three-component vectors over the reals, standing in for QVector3D. */
module Vectors {

  datatype Vec3 = Vec3(x: real, y: real, z: real)

  /** The default-constructed QVector3D. */
  const Zero: Vec3 := Vec3(0.0, 0.0, 0.0)

  function Add(a: Vec3, b: Vec3): Vec3 {
    Vec3(a.x + b.x, a.y + b.y, a.z + b.z)
  }

  function Sub(a: Vec3, b: Vec3): Vec3 {
    Vec3(a.x - b.x, a.y - b.y, a.z - b.z)
  }

  function Scale(k: real, v: Vec3): Vec3 {
    Vec3(k * v.x, k * v.y, k * v.z)
  }

  function Dot(a: Vec3, b: Vec3): real {
    a.x * b.x + a.y * b.y + a.z * b.z
  }

  /** The squared Euclidean length; the model compares these instead of square roots. */
  function NormSq(v: Vec3): (r: real)
    ensures r >= 0.0
  {
    Dot(v, v)
  }
}
