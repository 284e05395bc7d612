/**
  The vector algebra and geometric primitives of `rtm.h`: a three-component
  vector over the reals, rays, spheres, and the ray-sphere entry test.
 */
module Rtm {
  import opened Wrappers
  import opened Gcem

  /** The `long double` value of pi in the source, as an exact real. */
  const Pi: real := 3.141592653589793115997963468544185161590576171875

  function Deg2Rad(deg: real): real
  {
    deg / 180.0 * Pi
  }

  function Rad2Deg(rad: real): real
  {
    rad / Pi * 180.0
  }

  /** Over the reals the two conversions are inverse to each other. */
  lemma AngleRoundTrip(angle: real)
    ensures Rad2Deg(Deg2Rad(angle)) == angle
    ensures Deg2Rad(Rad2Deg(angle)) == angle
  {
  }

  /** The conversions keep sign and order. */
  lemma Deg2RadMonotonic(a: real, b: real)
    requires a <= b
    ensures Deg2Rad(a) <= Deg2Rad(b)
    ensures Rad2Deg(a) <= Rad2Deg(b)
  {
  }

  datatype Vector = Vector(x: real, y: real, z: real)

  /** The default-constructed vector `{ 0, 0, 0 }`. */
  const Zero := Vector(0.0, 0.0, 0.0)

  function Add(a: Vector, b: Vector): Vector
  {
    Vector(a.x + b.x, a.y + b.y, a.z + b.z)
  }

  function Sub(a: Vector, b: Vector): Vector
  {
    Vector(a.x - b.x, a.y - b.y, a.z - b.z)
  }

  /** `operator*(vector, scalar)`. */
  function Scale(a: Vector, k: real): Vector
  {
    Vector(a.x * k, a.y * k, a.z * k)
  }

  /** Subtraction undoes addition, and addition is commutative. */
  lemma AddSubCancel(a: Vector, b: Vector)
    ensures Sub(Add(a, b), b) == a
    ensures Add(Sub(a, b), b) == a
    ensures Add(a, b) == Add(b, a)
  {
  }

  /** Scaling distributes over addition and composes multiplicatively. */
  lemma ScaleLinear(a: Vector, b: Vector, k: real, l: real)
    ensures Scale(Add(a, b), k) == Add(Scale(a, k), Scale(b, k))
    ensures Scale(Scale(a, k), l) == Scale(a, k * l)
    ensures Scale(a, 1.0) == a
  {
  }

  /**
    A vector held in place, for `operator*=`, which multiplies the three
    components of its left operand and leaves the result there.
   */
  class VectorCell {
    var x: real
    var y: real
    var z: real

    constructor (v: Vector)
      ensures Value() == v
    {
      x, y, z := v.x, v.y, v.z;
    }

    function Value(): Vector
      reads this
    {
      Vector(x, y, z)
    }

    /** `*p = v`: the pointee is overwritten. */
    method Set(v: Vector)
      modifies this
      ensures Value() == v
    {
      x, y, z := v.x, v.y, v.z;
    }

    /** `a *= k`: the stored vector becomes `a * k`. */
    method ScaleBy(k: real)
      modifies this
      ensures Value() == Scale(old(Value()), k)
    {
      x := x * k;
      y := y * k;
      z := z * k;
    }
  }

  function Dot(a: Vector, b: Vector): real
  {
    a.x * b.x + a.y * b.y + a.z * b.z
  }

  /** The dot product is symmetric and linear in its first argument. */
  lemma DotSymmetric(a: Vector, b: Vector, c: Vector, k: real)
    ensures Dot(a, b) == Dot(b, a)
    ensures Dot(Add(a, c), b) == Dot(a, b) + Dot(c, b)
    ensures Dot(Scale(a, k), b) == k * Dot(a, b)
  {
  }

  /**
    The squared length: the dot product of a vector with itself, never
    negative, and zero for the zero vector.
   */
  function SqrMagnitude(a: Vector): (r: real)
    ensures 0.0 <= r
    ensures a == Zero ==> r == 0.0
    ensures r == Dot(a, a)
  {
    a.x * a.x + a.y * a.y + a.z * a.z
  }

  /** Scaling a vector by `k` scales its squared length by `k * k`. */
  lemma SqrMagnitudeScale(a: Vector, k: real)
    ensures SqrMagnitude(Scale(a, k)) == k * k * SqrMagnitude(a)
  {
  }

  /** `rtm::magnitude`: the square root of the squared length. */
  function Magnitude(m: Math, a: Vector): real
  {
    m.sqrt(SqrMagnitude(a))
  }

  /**
    Real division where the source divides floats. A zero divisor, which
    yields infinity or NaN in the source, yields 0.0 here.
   */
  function Quot(p: real, q: real): real
  {
    if q == 0.0 then 0.0 else p / q
  }

  /** Zero divided by anything, zero included, is zero. */
  lemma QuotZero(q: real)
    ensures Quot(0.0, q) == 0.0
  {
    if q != 0.0 {
      assert 0.0 / q == 0.0;
    }
  }

  /** `rtm::cos`: the cosine of the angle between two vectors. */
  function CosAngle(m: Math, a: Vector, b: Vector): real
  {
    Quot(Dot(a, b), Magnitude(m, a) * Magnitude(m, b))
  }

  function Normalize(m: Math, a: Vector): Vector
  {
    var g := Magnitude(m, a);
    Vector(Quot(a.x, g), Quot(a.y, g), Quot(a.z, g))
  }

  function ProjXY(a: Vector): Vector
  {
    Vector(a.x, a.y, 0.0)
  }

  function ProjXZ(a: Vector): Vector
  {
    Vector(a.x, 0.0, a.z)
  }

  function ProjYZ(a: Vector): Vector
  {
    Vector(0.0, a.y, a.z)
  }

  /**
    Each projection keeps the two named components and zeroes the third, is
    idempotent, and the three together count every component twice.
   */
  lemma Projections(a: Vector)
    ensures ProjXY(a).x == a.x && ProjXY(a).y == a.y && ProjXY(a).z == 0.0
    ensures ProjXZ(a).x == a.x && ProjXZ(a).y == 0.0 && ProjXZ(a).z == a.z
    ensures ProjYZ(a).x == 0.0 && ProjYZ(a).y == a.y && ProjYZ(a).z == a.z
    ensures ProjXY(ProjXY(a)) == ProjXY(a)
    ensures ProjXZ(ProjXZ(a)) == ProjXZ(a)
    ensures ProjYZ(ProjYZ(a)) == ProjYZ(a)
    ensures Add(Add(ProjXY(a), ProjXZ(a)), ProjYZ(a)) == Scale(a, 2.0)
    ensures SqrMagnitude(ProjXY(a)) <= SqrMagnitude(a)
    ensures SqrMagnitude(ProjXZ(a)) <= SqrMagnitude(a)
    ensures SqrMagnitude(ProjYZ(a)) <= SqrMagnitude(a)
  {
  }

  /** The polar angle of `a`, measured from +Z. */
  function Inclination(m: Math, a: Vector): real
  {
    m.acos(CosAngle(m, a, Vector(0.0, 0.0, 1.0)))
  }

  /** The azimuth of `a`, recovered from its projection on the XY plane; 0 for the zero vector. */
  function Azimuth(m: Math, a: Vector): real
  {
    if SqrMagnitude(a) == 0.0 then 0.0
    else m.acos(CosAngle(m, ProjXY(a), Vector(1.0, 0.0, 0.0)))
  }

  /** The Cartesian vector with length `r`, azimuth `phi` and inclination `theta`. */
  function FromSpherical(m: Math, r: real, phi: real, theta: real): Vector
  {
    Vector(r * m.sin(theta) * m.cos(phi), r * m.sin(theta) * m.sin(phi), r * m.cos(theta))
  }

  /**
    `rtm::rotate`: shift the spherical coordinates of `a` by `phi` in azimuth
    and `theta` in inclination, keeping its magnitude.
   */
  function Rotate(m: Math, a: Vector, phi: real, theta: real): Vector
  {
    FromSpherical(m, Magnitude(m, a), phi + Azimuth(m, a), theta + Inclination(m, a))
  }

  /** `interpolate(a, b, t) = a + (b - a) * t`, unconstrained in `t`. */
  function Interpolate(a: Vector, b: Vector, t: real): (r: Vector)
    ensures t == 0.0 ==> r == a
    ensures t == 1.0 ==> r == b
  {
    Vector(a.x + (b.x - a.x) * t, a.y + (b.y - a.y) * t, a.z + (b.z - a.z) * t)
  }

  /** `mix(a, b, k) = a * k + b * (1 - k)` is interpolation from `b` towards `a`. */
  function Mix(a: Vector, b: Vector, k: real): (r: Vector)
    ensures r == Interpolate(b, a, k)
  {
    Add(Scale(a, k), Scale(b, 1.0 - k))
  }

  /** A ray; the source's constructor stores the normalised direction. */
  datatype Ray = Ray(start: Vector, direction: Vector)

  /** The `ray(start, dir)` constructor. */
  function MakeRay(m: Math, start: Vector, dir: Vector): Ray
  {
    Ray(start, Normalize(m, dir))
  }

  /**
    The default-constructed ray: it starts at the origin and its direction is
    the normalised zero vector.
   */
  function DefaultRay(m: Math): Ray
  {
    MakeRay(m, Zero, Zero)
  }

  /**
    Normalising the zero vector divides by a zero magnitude, so the default
    ray's direction is the zero vector here, whatever `sqrt` returns.
   */
  lemma DefaultRayIsZero(m: Math)
    ensures DefaultRay(m) == Ray(Zero, Zero)
  {
    var g := Magnitude(m, Zero);
    QuotZero(g);
  }

  datatype Sphere = Sphere(center: Vector, radius: real)

  /** The default-constructed sphere: unit radius at the origin. */
  const DefaultSphere: Sphere := Sphere(Zero, 1.0)

  /** `D` of `rtm::intersect`; with a unit direction it is `(u.a)^2 - |a|^2 + radius^2`. */
  function Discriminant(m: Math, s: Sphere, r: Ray): real
  {
    var a := Sub(s.center, r.start);
    var c := CosAngle(m, r.direction, a);
    SqrMagnitude(a) * (c * c - 1.0) + s.radius * s.radius
  }

  /** `m` of `rtm::intersect`: the ray parameter of the near (entry) root. */
  function NearRoot(m: Math, s: Sphere, r: Ray): real
  {
    var a := Sub(s.center, r.start);
    Magnitude(m, a) * CosAngle(m, r.direction, a) - m.sqrt(Discriminant(m, s, r))
  }

  /**
    `rtm::intersect`. The source returns a boolean and writes the entry point
    through an output argument when it is not null; here `None` is `false`, and
    `Some(p)` is `true` with `p` the value written.
   */
  function Intersect(m: Math, s: Sphere, r: Ray): (hit: Option<Vector>)
    ensures hit.None? <==> Discriminant(m, s, r) < 0.0 || NearRoot(m, s, r) < 0.0
    ensures hit.Some? ==>
      0.0 <= NearRoot(m, s, r) &&
      hit.value == Add(r.start, Scale(Normalize(m, r.direction), NearRoot(m, s, r)))
  {
    var d := Discriminant(m, s, r);
    if d < 0.0 then None
    else
      var root := NearRoot(m, s, r);
      if root < 0.0 then None
      else Some(Add(r.start, Scale(Normalize(m, r.direction), root)))
  }

  /**
    A ray that starts strictly outside a sphere and does not point towards its
    centre never enters it. Only a non-negative `sqrt` is assumed.
   */
  lemma NoHitAway(m: Math, s: Sphere, r: Ray)
    requires NonNegativeSqrt(m)
    requires s.radius * s.radius < SqrMagnitude(Sub(s.center, r.start))
    requires Dot(r.direction, Sub(s.center, r.start)) <= 0.0
    ensures Intersect(m, s, r).None?
  {
    var a := Sub(s.center, r.start);
    var g := Magnitude(m, r.direction) * Magnitude(m, a);
    assert 0.0 <= Magnitude(m, r.direction) && 0.0 <= Magnitude(m, a);
    if g == 0.0 {
      assert CosAngle(m, r.direction, a) == 0.0;
      assert Discriminant(m, s, r) < 0.0;
    } else {
      var c := CosAngle(m, r.direction, a);
      assert 0.0 < g;
      assert c <= 0.0;
      if Discriminant(m, s, r) >= 0.0 {
        assert c != 0.0;
        assert 0.0 < Magnitude(m, a);
        assert Magnitude(m, a) * c < 0.0;
        assert 0.0 <= m.sqrt(Discriminant(m, s, r));
        assert NearRoot(m, s, r) < 0.0;
      }
    }
  }

  /**
    `rtm::intersect` with its output argument: `target` is the pointee, or null.
    The result does not depend on the output argument, and the pointee is written
    only on a hit and only when the output argument is not null.
   */
  method IntersectInto(m: Math, s: Sphere, r: Ray, target: VectorCell?) returns (found: bool)
    modifies target
    ensures found <==> Intersect(m, s, r).Some?
    ensures target != null && found ==> target.Value() == Intersect(m, s, r).value
    ensures target != null && !found ==> target.Value() == old(target.Value())
  {
    if Discriminant(m, s, r) < 0.0 {
      return false;
    }
    var root := NearRoot(m, s, r);
    if root < 0.0 {
      return false;
    }
    var b := Scale(Normalize(m, r.direction), root);
    if target != null {
      target.Set(Add(r.start, b));
    }
    return true;
  }

  /** `rtm::clamp(min, max, value)`: the upper bound is tested first. */
  function Clamp(min: real, max: real, value: real): (r: real)
    ensures min <= max ==> min <= r <= max
    ensures min < value < max ==> r == value
    ensures max <= value ==> r == max
    ensures value < max && value <= min ==> r == min
  {
    if value >= max then max else if value <= min then min else value
  }
}
