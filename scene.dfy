/**
 * `src/scene.rs`: the camera that turns viewport coordinates into rays, the hit
 * record an intersection fills in, spheres, and lists of scene objects that
 * report the nearest intersection.
 *
 * Every `hit` of the source is modelled twice: as a pure function returning
 * `Option<HitRecord>` that states which intersection is reported, and as a method
 * over the mutable `Hit` that the source threads through, proved to agree with
 * that function. The lemmas then show that the reported intersection lies on the
 * object, inside `[tMin, tMax]`, is the nearest one there, and that `None` means
 * the ray misses the object in that range.
 */
module Scene {
  import opened Numeric
  import opened Wrappers
  import opened Vec
  import opened Rays

  /* ---------------------------------------------------------------- Camera */

  /** `Camera { origin, lower_left_corner, horizontal, vertical }`. */
  datatype Camera = Camera(origin: Vec3, lowerLeftCorner: Vec3, horizontal: Vec3, vertical: Vec3)

  /**
   * The construction `Camera::new` performs, for a given aspect ratio, viewport
   * height and focal length: the viewport is centred on the `-z` axis at distance
   * `focalLength` from the origin.
   */
  function CameraFor(aspectRatio: real, viewportHeight: real, focalLength: real): (c: Camera)
    ensures c.origin == Vec3(0.0, 0.0, 0.0)
    ensures c.horizontal == Vec3(aspectRatio * viewportHeight, 0.0, 0.0)
    ensures c.vertical == Vec3(0.0, viewportHeight, 0.0)
    ensures c.lowerLeftCorner == Vec3(-(aspectRatio * viewportHeight) / 2.0, -viewportHeight / 2.0, -focalLength)
  {
    var viewportWidth := aspectRatio * viewportHeight;
    var origin := Vec3(0.0, 0.0, 0.0);
    var horizontal := Vec3(viewportWidth, 0.0, 0.0);
    var vertical := Vec3(0.0, viewportHeight, 0.0);
    var lowerLeftCorner := Sub(Sub(Sub(origin, Div(horizontal, 2.0)), Div(vertical, 2.0)), Vec3(0.0, 0.0, focalLength));
    Camera(origin, lowerLeftCorner, horizontal, vertical)
  }

  /** `Camera::new`: a 16:9 viewport of height 2 at focal length 1. */
  function NewCamera(): (c: Camera)
    ensures c.origin == Vec3(0.0, 0.0, 0.0)
    ensures c.lowerLeftCorner == Vec3(-16.0 / 9.0, -1.0, -1.0)
    ensures c.horizontal == Vec3(32.0 / 9.0, 0.0, 0.0)
    ensures c.vertical == Vec3(0.0, 2.0, 0.0)
  {
    CameraFor(16.0 / 9.0, 2.0, 1.0)
  }

  /** `Camera::get_ray`: the ray from the camera origin through viewport point `(u, v)`. */
  function GetRay(c: Camera, u: real, v: real): (r: Ray)
    ensures r.origin == c.origin
    ensures At(r, 1.0) == Add(Add(Scale(c.horizontal, u), Scale(c.vertical, v)), c.lowerLeftCorner)
  {
    AddSubCancel(Add(Add(Scale(c.horizontal, u), Scale(c.vertical, v)), c.lowerLeftCorner), c.origin);
    Ray(c.origin, Sub(Add(Add(Scale(c.horizontal, u), Scale(c.vertical, v)), c.lowerLeftCorner), c.origin))
  }

  /**
   * A camera built this way sends the ray for `(u, v)` towards
   * `(u - 1/2) * width, (v - 1/2) * height, -focalLength)`: `(0, 0)` reaches the lower
   * left corner and `(1/2, 1/2)` the centre of the viewport. With a non-zero focal
   * length, as `Camera::new` has, no ray has a zero direction, which is what the
   * intersection routines need.
   */
  lemma CameraRayDirection(aspectRatio: real, viewportHeight: real, focalLength: real, u: real, v: real)
    ensures var w := aspectRatio * viewportHeight;
      GetRay(CameraFor(aspectRatio, viewportHeight, focalLength), u, v).direction
        == Vec3(w * u - w / 2.0, viewportHeight * v - viewportHeight / 2.0, -focalLength)
    ensures focalLength != 0.0 ==> GetRay(CameraFor(aspectRatio, viewportHeight, focalLength), u, v).direction != Empty()
  {
    var c := CameraFor(aspectRatio, viewportHeight, focalLength);
    var w := aspectRatio * viewportHeight;
    assert Scale(c.horizontal, u) == Vec3(w * u, 0.0, 0.0);
    assert Scale(c.vertical, v) == Vec3(0.0, viewportHeight * v, 0.0);
  }

  /* ------------------------------------------------------------ Hit record */

  /** The value of a `Hit`: which side was hit, where, the normal there and the ray parameter. */
  datatype HitRecord = HitRecord(frontFace: bool, point: Vec3, normal: Vec3, t: real)

  /** `Hit::default()`. */
  function DefaultHit(): (h: HitRecord)
    ensures !h.frontFace && h.point == Empty() && h.normal == Empty() && h.t == 0.0
  {
    HitRecord(false, Vec3(0.0, 0.0, 0.0), Vec3(0.0, 0.0, 0.0), 0.0)
  }

  /**
   * The choice `set_face_normal` makes: the ray meets the front face when it runs
   * against the outward normal, and the stored normal always opposes the ray.
   */
  function FaceNormal(direction: Vec3, outward: Vec3): (r: (bool, Vec3))
    ensures r.0 <==> Dot(direction, outward) < 0.0
    ensures r.1 == outward || r.1 == Neg(outward)
    ensures Dot(direction, r.1) <= 0.0
    ensures r.0 ==> Dot(direction, r.1) < 0.0
    ensures LenSquared(r.1) == LenSquared(outward)
  {
    DotLinear(direction, outward, outward, 1.0);
    LenSquaredNeg(outward);
    var front := Dot(direction, outward) < 0.0;
    (front, if front then outward else Neg(outward))
  }

  /** `Hit`: the record that `hit` fills in place. */
  class Hit {
    var frontFace: bool
    var point: Vec3
    var normal: Vec3
    var t: real

    function Value(): HitRecord
      reads this
    {
      HitRecord(frontFace, point, normal, t)
    }

    /** `Hit::normal`. */
    function Normal(): Vec3
      reads this
    {
      normal
    }

    /** `Hit::default()`. */
    constructor Default()
      ensures Value() == DefaultHit()
    {
      frontFace := false;
      point := Vec3(0.0, 0.0, 0.0);
      normal := Vec3(0.0, 0.0, 0.0);
      t := 0.0;
    }

    /** `set_face_normal`: records the side and the normal facing the ray; point and `t` are kept. */
    method SetFaceNormal(ray: Ray, outward: Vec3)
      modifies this
      ensures Value() == old(Value()).(frontFace := FaceNormal(ray.direction, outward).0,
                                       normal := FaceNormal(ray.direction, outward).1)
    {
      frontFace := Dot(ray.direction, outward) < 0.0;
      normal := if frontFace then outward else Neg(outward);
    }

    /** `*hit = temp_hit.clone()`. */
    method CopyFrom(other: Hit)
      modifies this
      ensures Value() == old(other.Value())
    {
      frontFace, point, normal, t := other.frontFace, other.point, other.normal, other.t;
    }
  }

  /* --------------------------------------------------------------- Objects */

  /**
   * A scene object: a `Sphere { center, radius }` or a `SceneObjectVec`, a list of
   * objects that is itself an object.
   */
  datatype Object = Sphere(center: Vec3, radius: real) | Group(objects: seq<Object>)

  /** Every sphere in the object has a non-zero radius (a zero radius divides by zero in `hit`). */
  predicate WellFormed(o: Object) {
    match o
    case Sphere(_, radius) => radius != 0.0
    case Group(os) => forall i :: 0 <= i < |os| ==> WellFormed(os[i])
  }

  /** `p` lies on the sphere around `center` with radius `radius`. */
  predicate OnSurface(center: Vec3, radius: real, p: Vec3) {
    LenSquared(Sub(p, center)) == radius * radius
  }

  /** `p` lies on the surface of the object, that is, on one of its spheres. */
  predicate OnObject(o: Object, p: Vec3) {
    match o
    case Sphere(center, radius) => OnSurface(center, radius, p)
    case Group(os) => exists i :: 0 <= i < |os| && OnObject(os[i], p)
  }

  /**
   * `n` is a normal of one of the object's spheres at the point `p` on it: the
   * radius vector divided by the radius, or its reverse.
   */
  predicate NormalAt(o: Object, p: Vec3, n: Vec3) {
    match o
    case Sphere(center, radius) =>
      radius != 0.0 && OnSurface(center, radius, p) &&
      (n == Div(Sub(p, center), radius) || n == Neg(Div(Sub(p, center), radius)))
    case Group(os) => exists i :: 0 <= i < |os| && NormalAt(os[i], p, n)
  }

  /**
   * What a `hit` promises: `Some` carries the nearest parameter in `[tMin, tMax]`
   * at which the ray meets the object, with the point there; `None` means the ray
   * meets the object nowhere in `[tMin, tMax]`.
   */
  ghost predicate Reports(r: Option<HitRecord>, o: Object, ray: Ray, tMin: real, tMax: real) {
    match r
    case None => forall t :: tMin <= t <= tMax ==> !OnObject(o, At(ray, t))
    case Some(h) =>
      tMin <= h.t <= tMax && h.point == At(ray, h.t) && OnObject(o, h.point) &&
      forall t :: tMin <= t <= tMax && OnObject(o, At(ray, t)) ==> h.t <= t
  }

  /**
   * The normal a hit records is a unit normal of the surface at the hit point that
   * opposes the ray, strictly so when the front face was hit.
   */
  ghost predicate FacesRay(h: HitRecord, o: Object, ray: Ray) {
    NormalAt(o, h.point, h.normal) && LenSquared(h.normal) == 1.0 &&
    Dot(ray.direction, h.normal) <= 0.0 && (h.frontFace ==> Dot(ray.direction, h.normal) < 0.0)
  }

  /* --------------------------------------------------------------- Spheres */

  /** `a`, `b` and `c` of `Sphere::hit`: the ray meets the sphere where `a t^2 + 2 b t + c == 0`. */
  function QuadA(ray: Ray): real {
    LenSquared(ray.direction)
  }

  function QuadB(ray: Ray, center: Vec3): real {
    Dot(Sub(ray.origin, center), ray.direction)
  }

  function QuadC(ray: Ray, center: Vec3, radius: real): real {
    LenSquared(Sub(ray.origin, center)) - radius * radius
  }

  /** `discriminant`: `b * b - a * c`. */
  function Discriminant(ray: Ray, center: Vec3, radius: real): real {
    QuadB(ray, center) * QuadB(ray, center) - QuadA(ray) * QuadC(ray, center, radius)
  }

  /** `(p t + q)^2`, expanded. */
  lemma SquareOfSum(p: real, q: real, t: real)
    ensures (p * t + q) * (p * t + q) == p * p * t * t + 2.0 * p * q * t + q * q
  {
  }

  /** The squared distance from the centre, less `radius^2`, is the quadratic `Sphere::hit` solves. */
  lemma SurfaceQuadratic(ray: Ray, center: Vec3, radius: real, t: real)
    ensures LenSquared(Sub(At(ray, t), center)) - radius * radius
      == QuadA(ray) * t * t + 2.0 * QuadB(ray, center) * t + QuadC(ray, center, radius)
  {
    var d, oc := ray.direction, Sub(ray.origin, center);
    assert Sub(At(ray, t), center) == Vec3(d.x * t + oc.x, d.y * t + oc.y, d.z * t + oc.z);
    SquareOfSum(d.x, oc.x, t);
    SquareOfSum(d.y, oc.y, t);
    SquareOfSum(d.z, oc.z, t);
  }

  /** The ray meets the sphere at `t` exactly when `t` is a root of that quadratic. */
  lemma OnSurfaceIffRoot(ray: Ray, center: Vec3, radius: real, t: real)
    ensures OnSurface(center, radius, At(ray, t))
      <==> QuadA(ray) * t * t + 2.0 * QuadB(ray, center) * t + QuadC(ray, center, radius) == 0.0
  {
    SurfaceQuadratic(ray, center, radius, t);
  }

  /** With a negative discriminant the ray misses the sphere altogether. */
  lemma SphereMissed(ray: Ray, center: Vec3, radius: real, t: real)
    requires ray.direction != Empty()
    requires Discriminant(ray, center, radius) < 0.0
    ensures !OnSurface(center, radius, At(ray, t))
  {
    LenSquaredPositive(ray.direction);
    OnSurfaceIffRoot(ray, center, radius, t);
    NoRealRoot(QuadA(ray), QuadB(ray, center), QuadC(ray, center, radius), t);
  }

  /** Otherwise the ray meets the sphere exactly at the two roots `Sphere::hit` computes. */
  lemma SphereRoots(ray: Ray, center: Vec3, radius: real, s: real, t: real)
    requires ray.direction != Empty()
    requires 0.0 <= s
    requires s * s == Discriminant(ray, center, radius)
    ensures 0.0 < QuadA(ray)
    ensures var a, b := QuadA(ray), QuadB(ray, center);
      (-b - s) / a <= (-b + s) / a &&
      (OnSurface(center, radius, At(ray, t)) <==> t == (-b - s) / a || t == (-b + s) / a)
  {
    var a, b, c := QuadA(ray), QuadB(ray, center), QuadC(ray, center, radius);
    LenSquaredPositive(ray.direction);
    RootOrder(a, b, s);
    OnSurfaceIffRoot(ray, center, radius, t);
    QuadraticRoots(a, b, c, s, t);
  }

  /** "Find the nearest root that lies in acceptable range": `near` if in range, else `far` if in range. */
  function PickRoot(near: real, far: real, tMin: real, tMax: real): (r: Option<real>)
    ensures r.Some? <==> tMin <= near <= tMax || tMin <= far <= tMax
    ensures r.Some? ==> tMin <= r.value <= tMax && (r.value == near || r.value == far)
    ensures tMin <= near <= tMax ==> r == Some(near)
  {
    if tMin <= near <= tMax then Some(near)
    else if tMin <= far <= tMax then Some(far)
    else None
  }

  /** The parameter `Sphere::hit` settles on, if any. */
  function SphereRoot(sqrt: real -> real, center: Vec3, radius: real, ray: Ray, tMin: real, tMax: real): Option<real>
    requires IsSqrt(sqrt)
    requires ray.direction != Empty()
  {
    var a := QuadA(ray);
    var b := QuadB(ray, center);
    var discriminant := Discriminant(ray, center, radius);
    if discriminant < 0.0 then None
    else
      var s := sqrt(discriminant);
      LenSquaredPositive(ray.direction);
      RootOrder(a, b, s);
      PickRoot((-b - s) / a, (-b + s) / a, tMin, tMax)
  }

  /** With a non-negative discriminant the two roots are where the ray meets the sphere. */
  lemma SphereHitsAtRoots(sqrt: real -> real, center: Vec3, radius: real, ray: Ray)
    requires IsSqrt(sqrt)
    requires ray.direction != Empty()
    requires 0.0 <= Discriminant(ray, center, radius)
    ensures 0.0 < QuadA(ray)
    ensures var a, b, s := QuadA(ray), QuadB(ray, center), sqrt(Discriminant(ray, center, radius));
      forall t :: OnSurface(center, radius, At(ray, t)) <==> t == (-b - s) / a || t == (-b + s) / a
  {
    LenSquaredPositive(ray.direction);
    var a, b, s := QuadA(ray), QuadB(ray, center), sqrt(Discriminant(ray, center, radius));
    forall t
      ensures OnSurface(center, radius, At(ray, t)) <==> t == (-b - s) / a || t == (-b + s) / a
    {
      SphereRoots(ray, center, radius, s, t);
    }
  }

  /** The sphere root is the nearest parameter in range where the ray meets the sphere, if there is one. */
  lemma SphereRootNearest(sqrt: real -> real, center: Vec3, radius: real, ray: Ray, tMin: real, tMax: real)
    requires IsSqrt(sqrt)
    requires ray.direction != Empty()
    ensures var r := SphereRoot(sqrt, center, radius, ray, tMin, tMax);
      match r
      case None => forall t :: tMin <= t <= tMax ==> !OnSurface(center, radius, At(ray, t))
      case Some(root) =>
        tMin <= root <= tMax && OnSurface(center, radius, At(ray, root)) &&
        forall t :: tMin <= t <= tMax && OnSurface(center, radius, At(ray, t)) ==> root <= t
  {
    if Discriminant(ray, center, radius) < 0.0 {
      forall t | tMin <= t <= tMax
        ensures !OnSurface(center, radius, At(ray, t))
      {
        SphereMissed(ray, center, radius, t);
      }
    } else {
      SphereHitsAtRoots(sqrt, center, radius, ray);
    }
  }

  /** The record `Sphere::hit` writes for the parameter `t`. */
  function SphereRecord(ray: Ray, center: Vec3, radius: real, t: real): (h: HitRecord)
    requires radius != 0.0
    ensures h.t == t && h.point == At(ray, t)
  {
    var p := At(ray, t);
    var face := FaceNormal(ray.direction, Div(Sub(p, center), radius));
    HitRecord(face.0, p, face.1, t)
  }

  /**
   * `Sphere::hit` as a function: no hit when the discriminant is negative;
   * otherwise the smaller root if it lies in `[tMin, tMax]`, else the larger one if
   * it does, else no hit; a hit records the point, and the normal from
   * `set_face_normal` with the radius vector divided by the radius as outward normal.
   */
  function SphereHit(sqrt: real -> real, center: Vec3, radius: real, ray: Ray, tMin: real, tMax: real): (r: Option<HitRecord>)
    requires IsSqrt(sqrt)
    requires ray.direction != Empty() && radius != 0.0
    ensures r.Some? ==> tMin <= r.value.t <= tMax && r.value.point == At(ray, r.value.t)
  {
    var root := SphereRoot(sqrt, center, radius, ray, tMin, tMax);
    if root.Some? then Some(SphereRecord(ray, center, radius, root.value)) else None
  }

  /** The sphere's hit is the nearest intersection in range, and `None` only when there is none. */
  lemma SphereHitReports(sqrt: real -> real, center: Vec3, radius: real, ray: Ray, tMin: real, tMax: real)
    requires IsSqrt(sqrt)
    requires ray.direction != Empty() && radius != 0.0
    ensures Reports(SphereHit(sqrt, center, radius, ray, tMin, tMax), Sphere(center, radius), ray, tMin, tMax)
  {
    SphereRootNearest(sqrt, center, radius, ray, tMin, tMax);
  }

  /** The normal of the sphere's hit is the unit normal at the hit point, turned against the ray. */
  lemma SphereHitFacesRay(sqrt: real -> real, center: Vec3, radius: real, ray: Ray, tMin: real, tMax: real)
    requires IsSqrt(sqrt)
    requires ray.direction != Empty() && radius != 0.0
    requires SphereHit(sqrt, center, radius, ray, tMin, tMax).Some?
    ensures FacesRay(SphereHit(sqrt, center, radius, ray, tMin, tMax).value, Sphere(center, radius), ray)
  {
    var h := SphereHit(sqrt, center, radius, ray, tMin, tMax).value;
    SphereHitReports(sqrt, center, radius, ray, tMin, tMax);
    DivBySquareRoot(Sub(h.point, center), radius);
  }

  /* ----------------------------------------------------------- Object lists */

  /** `closest_so_far`: the parameter of the hit found so far, or `tMax` before any. */
  function ClosestSoFar(r: Option<HitRecord>, tMax: real): real {
    if r.Some? then r.value.t else tMax
  }

  /** `SceneObject::hit`, dispatched on the kind of object. */
  function ObjectHit(sqrt: real -> real, o: Object, ray: Ray, tMin: real, tMax: real): (r: Option<HitRecord>)
    requires IsSqrt(sqrt)
    requires ray.direction != Empty() && WellFormed(o)
    ensures r.Some? ==> tMin <= r.value.t <= tMax && r.value.point == At(ray, r.value.t)
    decreases o, 1
  {
    match o
    case Sphere(center, radius) => SphereHit(sqrt, center, radius, ray, tMin, tMax)
    case Group(os) => ListHit(sqrt, os, ray, tMin, tMax)
  }

  /**
   * `SceneObjectVec::hit` as a function: the objects are tried in order, each in
   * `[tMin, closest_so_far]`, and each hit replaces the one before it.
   */
  function ListHit(sqrt: real -> real, os: seq<Object>, ray: Ray, tMin: real, tMax: real): (r: Option<HitRecord>)
    requires IsSqrt(sqrt)
    requires ray.direction != Empty() && forall i :: 0 <= i < |os| ==> WellFormed(os[i])
    ensures r.Some? ==> tMin <= r.value.t <= tMax && r.value.point == At(ray, r.value.t)
    decreases os, 0
  {
    if os == [] then None
    else
      var prev := ListHit(sqrt, os[..|os| - 1], ray, tMin, tMax);
      var cur := ObjectHit(sqrt, os[|os| - 1], ray, tMin, ClosestSoFar(prev, tMax));
      if cur.Some? then cur else prev
  }

  /** A point is on a list of objects exactly when it is on its prefix or on its last object. */
  lemma OnGroupSplit(os: seq<Object>, p: Vec3)
    requires os != []
    ensures OnObject(Group(os), p) <==> OnObject(Group(os[..|os| - 1]), p) || OnObject(os[|os| - 1], p)
  {
    var n := |os| - 1;
    if OnObject(Group(os), p) {
      var i :| 0 <= i < |os| && OnObject(os[i], p);
      if i < n {
        assert os[..n][i] == os[i];
      }
    }
    if OnObject(Group(os[..n]), p) {
      var i :| 0 <= i < n && OnObject(os[..n][i], p);
      assert os[i] == os[..n][i];
    }
  }

  /** A normal of the prefix or of the last object is a normal of the whole list. */
  lemma NormalGroupExtend(os: seq<Object>, p: Vec3, normal: Vec3)
    requires os != []
    requires NormalAt(Group(os[..|os| - 1]), p, normal) || NormalAt(os[|os| - 1], p, normal)
    ensures NormalAt(Group(os), p, normal)
  {
    var n := |os| - 1;
    if NormalAt(Group(os[..n]), p, normal) {
      var i :| 0 <= i < n && NormalAt(os[..n][i], p, normal);
      assert os[i] == os[..n][i];
    } else {
      assert NormalAt(os[n], p, normal);
    }
  }

  /**
   * Every object reports the nearest intersection in `[tMin, tMax]`, or none when
   * there is none, with a unit normal turned against the ray.
   */
  lemma {:induction false} ObjectHitReports(sqrt: real -> real, o: Object, ray: Ray, tMin: real, tMax: real)
    requires IsSqrt(sqrt)
    requires ray.direction != Empty() && WellFormed(o)
    ensures Reports(ObjectHit(sqrt, o, ray, tMin, tMax), o, ray, tMin, tMax)
    ensures ObjectHit(sqrt, o, ray, tMin, tMax).Some? ==> FacesRay(ObjectHit(sqrt, o, ray, tMin, tMax).value, o, ray)
    decreases o, 1
  {
    match o
    case Sphere(center, radius) =>
      SphereHitReports(sqrt, center, radius, ray, tMin, tMax);
      if SphereHit(sqrt, center, radius, ray, tMin, tMax).Some? {
        SphereHitFacesRay(sqrt, center, radius, ray, tMin, tMax);
      }
    case Group(os) =>
      ListHitReports(sqrt, os, ray, tMin, tMax);
  }

  /** The same for a list of objects, by induction on its length. */
  lemma {:induction false} ListHitReports(sqrt: real -> real, os: seq<Object>, ray: Ray, tMin: real, tMax: real)
    requires IsSqrt(sqrt)
    requires ray.direction != Empty() && forall i :: 0 <= i < |os| ==> WellFormed(os[i])
    ensures Reports(ListHit(sqrt, os, ray, tMin, tMax), Group(os), ray, tMin, tMax)
    ensures ListHit(sqrt, os, ray, tMin, tMax).Some? ==> FacesRay(ListHit(sqrt, os, ray, tMin, tMax).value, Group(os), ray)
    decreases os, 0
  {
    if os != [] {
      var n := |os| - 1;
      var prefix, last := os[..n], os[n];
      var prev := ListHit(sqrt, prefix, ray, tMin, tMax);
      var bound := ClosestSoFar(prev, tMax);
      var cur := ObjectHit(sqrt, last, ray, tMin, bound);
      ListHitReports(sqrt, prefix, ray, tMin, tMax);
      ObjectHitReports(sqrt, last, ray, tMin, bound);
      forall p
        ensures OnObject(Group(os), p) <==> OnObject(Group(prefix), p) || OnObject(last, p)
      {
        OnGroupSplit(os, p);
      }
      if cur.Some? {
        NormalGroupExtend(os, cur.value.point, cur.value.normal);
      } else if prev.Some? {
        NormalGroupExtend(os, prev.value.point, prev.value.normal);
      }
    }
  }

  /* --------------------------------------------------------------- Methods */

  /** `Sphere::hit`: on a hit, fills in `hit` and answers `true`; otherwise leaves `hit` alone. */
  method HitSphere(sqrt: real -> real, center: Vec3, radius: real, ray: Ray, tMin: real, tMax: real, hit: Hit)
    returns (found: bool)
    requires IsSqrt(sqrt)
    requires ray.direction != Empty() && radius != 0.0
    modifies hit
    ensures found <==> SphereHit(sqrt, center, radius, ray, tMin, tMax).Some?
    ensures found ==> hit.Value() == SphereHit(sqrt, center, radius, ray, tMin, tMax).value
    ensures !found ==> hit.Value() == old(hit.Value())
  {
    var oc := Sub(ray.origin, center);
    var a := LenSquared(ray.direction);
    var b := Dot(oc, ray.direction);
    var c := LenSquared(oc) - radius * radius;
    var discriminant := b * b - a * c;
    assert a == QuadA(ray) && b == QuadB(ray, center) && discriminant == Discriminant(ray, center, radius);
    if discriminant < 0.0 {
      return false;
    }
    var s := sqrt(discriminant);
    LenSquaredPositive(ray.direction);
    RootOrder(a, b, s);
    ghost var picked := PickRoot((-b - s) / a, (-b + s) / a, tMin, tMax);
    assert SphereRoot(sqrt, center, radius, ray, tMin, tMax) == picked;
    var root := (-b - s) / a;
    if root < tMin || tMax < root {
      root := (-b + s) / a;
      if root < tMin || tMax < root {
        return false;
      }
    }
    assert picked == Some(root);
    var outward := Div(Sub(At(ray, root), center), radius);
    hit.t := root;
    hit.point := At(ray, root);
    hit.SetFaceNormal(ray, outward);
    return true;
  }

  /** `SceneObject::hit` for any object. */
  method HitObject(sqrt: real -> real, o: Object, ray: Ray, tMin: real, tMax: real, hit: Hit) returns (found: bool)
    requires IsSqrt(sqrt)
    requires ray.direction != Empty() && WellFormed(o)
    modifies hit
    ensures found <==> ObjectHit(sqrt, o, ray, tMin, tMax).Some?
    ensures found ==> hit.Value() == ObjectHit(sqrt, o, ray, tMin, tMax).value
    ensures !found ==> hit.Value() == old(hit.Value())
    decreases o, 1
  {
    match o
    case Sphere(center, radius) =>
      found := HitSphere(sqrt, center, radius, ray, tMin, tMax, hit);
    case Group(os) =>
      found := HitList(sqrt, os, ray, tMin, tMax, hit);
  }

  /**
   * `SceneObjectVec::hit`: one scratch `Hit` is passed to every object in turn with
   * the range shrunk to the closest hit so far, and copied into `hit` whenever the
   * object reports a hit.
   */
  method HitList(sqrt: real -> real, os: seq<Object>, ray: Ray, tMin: real, tMax: real, hit: Hit)
    returns (hasHit: bool)
    requires IsSqrt(sqrt)
    requires ray.direction != Empty() && forall i :: 0 <= i < |os| ==> WellFormed(os[i])
    modifies hit
    ensures hasHit <==> ListHit(sqrt, os, ray, tMin, tMax).Some?
    ensures hasHit ==> hit.Value() == ListHit(sqrt, os, ray, tMin, tMax).value
    ensures !hasHit ==> hit.Value() == old(hit.Value())
    decreases os, 0
  {
    var tempHit := new Hit.Default();
    hasHit := false;
    var closestSoFar := tMax;
    for i := 0 to |os|
      invariant hasHit <==> ListHit(sqrt, os[..i], ray, tMin, tMax).Some?
      invariant closestSoFar == ClosestSoFar(ListHit(sqrt, os[..i], ray, tMin, tMax), tMax)
      invariant hasHit ==> hit.Value() == ListHit(sqrt, os[..i], ray, tMin, tMax).value
      invariant !hasHit ==> hit.Value() == old(hit.Value())
    {
      assert os[..i + 1][..i] == os[..i];
      var found := HitObject(sqrt, os[i], ray, tMin, closestSoFar, tempHit);
      if found {
        hasHit := true;
        closestSoFar := tempHit.t;
        hit.CopyFrom(tempHit);
      }
    }
    assert os[..|os|] == os;
  }
}
