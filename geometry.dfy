/** Vectors of core/math as exact reals; the modelled code only stores, compares and passes them on. */
module Geometry {
  datatype Vector3 = Vector3(x: real, y: real, z: real)

  const Zero: Vector3 := Vector3(0.0, 0.0, 0.0)
}
