/** glm::vec3 and glm::vec4 over the reals, with the componentwise operations
    the physics code uses. */
module Vectors {

  datatype Vec3 = Vec3(x: real, y: real, z: real) {
    function Add(o: Vec3): Vec3 { Vec3(x + o.x, y + o.y, z + o.z) }
    function Sub(o: Vec3): Vec3 { Vec3(x - o.x, y - o.y, z - o.z) }
    function Neg(): Vec3 { Vec3(-x, -y, -z) }
    function Scale(k: real): Vec3 { Vec3(k * x, k * y, k * z) }
    function Dot(o: Vec3): real { x * o.x + y * o.y + z * o.z }

    /** Component `axis` (0, 1 or 2), as `v[axis]` in glm. */
    function At(axis: nat): real
      requires axis < 3
    {
      if axis == 0 then x else if axis == 1 then y else z
    }

    /** `v[axis] = val`. */
    function With(axis: nat, val: real): Vec3
      requires axis < 3
    {
      if axis == 0 then Vec3(val, y, z) else if axis == 1 then Vec3(x, val, z) else Vec3(x, y, val)
    }
  }

  const Zero := Vec3(0.0, 0.0, 0.0)

  datatype Vec4 = Vec4(r: real, g: real, b: real, a: real)

  /** glm::mix(p, q, t) = p * (1 - t) + q * t, componentwise. */
  function Mix(p: Vec4, q: Vec4, t: real): Vec4 {
    Vec4(p.r * (1.0 - t) + q.r * t, p.g * (1.0 - t) + q.g * t,
         p.b * (1.0 - t) + q.b * t, p.a * (1.0 - t) + q.a * t)
  }
}
