/**
 * `src/ray.rs`: a half-line from an origin along a direction.
 */
module Rays {
  import opened Vec

  /** `Ray { origin, direction }`. */
  datatype Ray = Ray(origin: Vec3, direction: Vec3)

  /** `at`: the point reached after travelling `t` units of `direction` from `origin`. */
  function At(ray: Ray, t: real): Vec3 {
    Add(Scale(ray.direction, t), ray.origin)
  }

  /** Going `t` along the ray moves the origin by `t` times the direction. */
  lemma AtIsOffset(ray: Ray, t: real)
    ensures Sub(At(ray, t), ray.origin) == Scale(ray.direction, t)
    ensures At(ray, 0.0) == ray.origin
    ensures At(ray, 1.0) == Add(ray.direction, ray.origin)
  {
  }

  /** Two points on a ray are apart by the difference of their parameters times the direction. */
  lemma AtDifference(ray: Ray, t1: real, t2: real)
    ensures Sub(At(ray, t1), At(ray, t2)) == Scale(ray.direction, t1 - t2)
  {
  }
}
