/**
  The scene layer of `rtg.h`: the camera and its view frustum, primary rays
  through screen pixels, coloured spheres, and the nearest-hit query over a
  list of spheres with an exclusion list.
 */
module Rtg {
  import opened Wrappers
  import opened Gcem
  import opened Rtm

  /** A camera; angles in radians once `main` has converted them. */
  datatype Camera = Camera(position: Vector, forward: Vector, hFov: real, vFov: real)

  /** The default camera: at the origin, looking along +Z, 70 by 40 degrees. */
  const DefaultCamera: Camera := Camera(Zero, Vector(0.0, 0.0, 1.0), 70.0, 40.0)

  /**
    `rtg::view`: the four frustum corners, each the sum of two neighbouring
    rotations of the forward vector. Opposite corners sum to the same vector,
    the total of all four rotations.
   */
  function View(m: Math, c: Camera): (v: seq<Vector>)
    ensures |v| == 4
    ensures Add(v[0], v[2]) == Add(v[1], v[3])
    ensures Add(v[0], v[2]) == Add(Add(Rotate(m, c.forward, c.hFov / 2.0, 0.0), Rotate(m, c.forward, 0.0, -c.vFov / 2.0)),
                                   Add(Rotate(m, c.forward, -c.hFov / 2.0, 0.0), Rotate(m, c.forward, 0.0, c.vFov / 2.0)))
  {
    var r0 := Rotate(m, c.forward, c.hFov / 2.0, 0.0);
    var r1 := Rotate(m, c.forward, 0.0, -c.vFov / 2.0);
    var r2 := Rotate(m, c.forward, -c.hFov / 2.0, 0.0);
    var r3 := Rotate(m, c.forward, 0.0, c.vFov / 2.0);
    [Add(r0, r1), Add(r1, r2), Add(r2, r3), Add(r3, r0)]
  }

  /**
    The screen parameter `k / extent` of `screen_ray`. It lies in [0, 1) for
    every pixel on the screen; a zero extent, a division by zero in the
    source, gives 0.
   */
  function ScreenCoordinate(k: nat, extent: nat): (t: real)
    ensures k < extent ==> 0.0 <= t < 1.0
    ensures k == 0 ==> t == 0.0
  {
    Quot(k as real, extent as real)
  }

  /** On a non-empty screen the parameter is the fraction `k / extent`. */
  lemma ScreenCoordinateFraction(k: nat, extent: nat)
    requires 0 < extent
    ensures ScreenCoordinate(k, extent) * (extent as real) == k as real
  {
  }

  /**
    The un-normalised direction of `screen_ray`: the top edge from corner 0
    to corner 1 and the bottom edge from corner 3 to corner 2 are
    interpolated along the row, then the two points along the column.
   */
  function ScreenDirection(view: seq<Vector>, width: nat, height: nat, x: nat, y: nat): (d: Vector)
    requires |view| == 4
    ensures x == 0 && y == 0 ==> d == view[0]
    ensures y == 0 ==> d == Interpolate(view[0], view[1], ScreenCoordinate(x, width))
    ensures x == 0 ==> d == Interpolate(view[0], view[3], ScreenCoordinate(y, height))
  {
    var tw := ScreenCoordinate(x, width);
    var th := ScreenCoordinate(y, height);
    Interpolate(Interpolate(view[0], view[1], tw), Interpolate(view[3], view[2], tw), th)
  }

  /** `rtg::screen_ray`: the ray from the camera through pixel `(x, y)`. */
  function ScreenRay(m: Math, position: Vector, view: seq<Vector>, width: nat, height: nat, x: nat, y: nat): (r: Ray)
    requires |view| == 4
    ensures r.start == position
    ensures x == 0 && y == 0 ==> r == MakeRay(m, position, view[0])
  {
    MakeRay(m, position, ScreenDirection(view, width, height, x, y))
  }

  /** `rtg::sphere`: an `rtm::sphere` with a colour. */
  datatype Sphere = Sphere(center: Vector, radius: real, color: Vector)
  {
    /** The geometric sphere this one extends. */
    function Geometry(): Rtm.Sphere
    {
      Rtm.Sphere(center, radius)
    }
  }

  /** The sphere `rtg::sphere` constructs by default: unit radius at the origin, white. */
  const DefaultSphere: Sphere := Sphere.Sphere(Zero, 1.0, Vector(1.0, 1.0, 1.0))

  /** The sphere part of the default sphere is the default `rtm::sphere`. */
  lemma DefaultSphereGeometry()
    ensures DefaultSphere.Geometry() == Rtm.DefaultSphere
  {
  }

  datatype Scene = Scene(spheres: seq<Sphere>, light: Vector)

  /** The default-constructed scene: no spheres, and the light at the origin. */
  const DefaultScene: Scene := Scene([], Zero)

  /** A distance bound that may be `INFINITY`. */
  datatype Distance = Infinity | Finite(value: real)

  /** `max_distance * max_distance`; infinity squares to infinity. */
  function SquareOf(d: Distance): Distance
  {
    match d
    case Infinity => Infinity
    case Finite(v) => Finite(v * v)
  }

  /** `x < bound`; every real is below infinity. */
  predicate Less(x: real, bound: Distance)
  {
    match bound
    case Infinity => true
    case Finite(v) => x < v
  }

  /** A squared distance that is within the distance bound `limit`. */
  predicate Below(sqr: real, limit: Distance)
  {
    Less(sqr, SquareOf(limit))
  }

  /** `(size_t)-1`, the index `raytrace` starts from before any hit is written. */
  const SizeMax: nat := 0xFFFF_FFFF_FFFF_FFFF

  /** A hit: the entry point, its squared distance from the ray start, and the sphere's index. */
  datatype Hit = Hit(position: Vector, sqrDistance: real, index: nat)

  /**
    What sphere `i` contributes to the search: nothing when `i` is excluded
    or the ray misses it, and otherwise its entry point and squared distance.
   */
  function Candidate(m: Math, ray: Ray, spheres: seq<Sphere>, excluded: seq<nat>, i: nat): (c: Option<Hit>)
    requires i < |spheres|
    ensures c.None? <==> i in excluded || Rtm.Intersect(m, spheres[i].Geometry(), ray).None?
    ensures c.Some? ==>
      c.value.index == i &&
      Rtm.Intersect(m, spheres[i].Geometry(), ray) == Some(c.value.position) &&
      c.value.sqrDistance == SqrMagnitude(Sub(ray.start, c.value.position)) &&
      0.0 <= c.value.sqrDistance
  {
    if i in excluded then None
    else
      match Rtm.Intersect(m, spheres[i].Geometry(), ray)
      case None => None
      case Some(p) => Some(Hit(p, SqrMagnitude(Sub(ray.start, p)), i))
  }

  /**
    The squared distance a candidate carries is that of its entry point along
    the ray: the square of the near root `m` times the squared length of the
    normalised direction, so for a unit direction it is `m * m`.
   */
  lemma CandidateDistance(m: Math, ray: Ray, spheres: seq<Sphere>, excluded: seq<nat>, i: nat)
    requires i < |spheres|
    requires Candidate(m, ray, spheres, excluded, i).Some?
    ensures var t := NearRoot(m, spheres[i].Geometry(), ray);
      0.0 <= t &&
      Candidate(m, ray, spheres, excluded, i).value.sqrDistance == t * t * SqrMagnitude(Normalize(m, ray.direction))
  {
    var s := spheres[i].Geometry();
    var t := NearRoot(m, s, ray);
    var u := Normalize(m, ray.direction);
    var p := Add(ray.start, Scale(u, t));
    assert Sub(ray.start, p) == Scale(u, -t);
    SqrMagnitudeScale(u, -t);
  }

  /** Sphere `j` is not excluded, is hit, and is hit within `limit`. */
  predicate Eligible(m: Math, ray: Ray, limit: Distance, spheres: seq<Sphere>, excluded: seq<nat>, j: nat)
  {
    j < |spheres| &&
    Candidate(m, ray, spheres, excluded, j).Some? &&
    Below(Candidate(m, ray, spheres, excluded, j).value.sqrDistance, limit)
  }

  /**
    `h` is the answer of the search over the first `k` spheres: it is the
    candidate of an eligible sphere, no eligible sphere is nearer, and every
    eligible sphere before it is strictly farther (ties go to the lowest index).
   */
  ghost predicate IsNearest(m: Math, ray: Ray, limit: Distance, spheres: seq<Sphere>, excluded: seq<nat>, h: Hit, k: nat)
  {
    h.index < k &&
    Eligible(m, ray, limit, spheres, excluded, h.index) &&
    Candidate(m, ray, spheres, excluded, h.index) == Some(h) &&
    (forall j: nat :: j < k && Eligible(m, ray, limit, spheres, excluded, j) ==>
      h.sqrDistance <= Candidate(m, ray, spheres, excluded, j).value.sqrDistance) &&
    (forall j: nat :: j < h.index && Eligible(m, ray, limit, spheres, excluded, j) ==>
      h.sqrDistance < Candidate(m, ray, spheres, excluded, j).value.sqrDistance)
  }

  /** The loop's test `sqr < sqr_min_intersection_distance`, with `best` the hit so far. */
  predicate Improves(limit: Distance, best: Option<Hit>, sqr: real)
  {
    match best
    case None => Below(sqr, limit)
    case Some(b) => sqr < b.sqrDistance
  }

  /** The state of the search after the first `k` spheres. */
  function Scan(m: Math, ray: Ray, limit: Distance, spheres: seq<Sphere>, excluded: seq<nat>, k: nat): Option<Hit>
    requires k <= |spheres|
  {
    if k == 0 then None
    else
      var best := Scan(m, ray, limit, spheres, excluded, k - 1);
      var c := Candidate(m, ray, spheres, excluded, k - 1);
      if c.Some? && Improves(limit, best, c.value.sqrDistance) then c else best
  }

  /** Every real below `b` is below whatever bound `b` is below. */
  lemma LessTransitive(a: real, b: real, bound: Distance)
    requires a < b
    requires Less(b, bound)
    ensures Less(a, bound)
  {
  }

  /** A candidate that improves on the best of the first `k` spheres is the nearest of the first `k + 1`. */
  lemma ScanTakes(m: Math, ray: Ray, limit: Distance, spheres: seq<Sphere>, excluded: seq<nat>, best: Option<Hit>, k: nat)
    requires k < |spheres|
    requires best.None? <==> forall j: nat :: j < k ==> !Eligible(m, ray, limit, spheres, excluded, j)
    requires best.Some? ==> IsNearest(m, ray, limit, spheres, excluded, best.value, k)
    requires Candidate(m, ray, spheres, excluded, k).Some?
    requires Improves(limit, best, Candidate(m, ray, spheres, excluded, k).value.sqrDistance)
    ensures IsNearest(m, ray, limit, spheres, excluded, Candidate(m, ray, spheres, excluded, k).value, k + 1)
  {
    var c := Candidate(m, ray, spheres, excluded, k).value;
    if best.Some? {
      LessTransitive(c.sqrDistance, best.value.sqrDistance, SquareOf(limit));
    }
    assert Eligible(m, ray, limit, spheres, excluded, k);
  }

  /** When sphere `k` does not improve on the best so far, the best of `k` spheres is the best of `k + 1`. */
  lemma ScanKeeps(m: Math, ray: Ray, limit: Distance, spheres: seq<Sphere>, excluded: seq<nat>, best: Option<Hit>, k: nat)
    requires k < |spheres|
    requires best.None? <==> forall j: nat :: j < k ==> !Eligible(m, ray, limit, spheres, excluded, j)
    requires best.Some? ==> IsNearest(m, ray, limit, spheres, excluded, best.value, k)
    requires !(Candidate(m, ray, spheres, excluded, k).Some? &&
               Improves(limit, best, Candidate(m, ray, spheres, excluded, k).value.sqrDistance))
    ensures best.None? <==> forall j: nat :: j < k + 1 ==> !Eligible(m, ray, limit, spheres, excluded, j)
    ensures best.Some? ==> IsNearest(m, ray, limit, spheres, excluded, best.value, k + 1)
  {
    var c := Candidate(m, ray, spheres, excluded, k);
    if best.Some? {
      assert Eligible(m, ray, limit, spheres, excluded, k) ==> best.value.sqrDistance <= c.value.sqrDistance;
    } else {
      assert !Eligible(m, ray, limit, spheres, excluded, k);
    }
  }

  /** The search over the first `k` spheres finds exactly the nearest eligible one. */
  lemma {:induction false} ScanCorrect(m: Math, ray: Ray, limit: Distance, spheres: seq<Sphere>, excluded: seq<nat>, k: nat)
    requires k <= |spheres|
    ensures Scan(m, ray, limit, spheres, excluded, k).None? <==>
      forall j: nat :: j < k ==> !Eligible(m, ray, limit, spheres, excluded, j)
    ensures Scan(m, ray, limit, spheres, excluded, k).Some? ==>
      IsNearest(m, ray, limit, spheres, excluded, Scan(m, ray, limit, spheres, excluded, k).value, k)
  {
    if k > 0 {
      ScanCorrect(m, ray, limit, spheres, excluded, k - 1);
      var best := Scan(m, ray, limit, spheres, excluded, k - 1);
      var c := Candidate(m, ray, spheres, excluded, k - 1);
      if c.Some? && Improves(limit, best, c.value.sqrDistance) {
        ScanTakes(m, ray, limit, spheres, excluded, best, k - 1);
        assert Eligible(m, ray, limit, spheres, excluded, k - 1);
      } else {
        ScanKeeps(m, ray, limit, spheres, excluded, best, k - 1);
      }
    }
  }

  /**
    The result `rtg::intersect` specifies: `None` exactly when no sphere that
    is not excluded is hit within `limit`, and otherwise the nearest such hit,
    the lowest index winning a tie.
   */
  function NearestHit(m: Math, ray: Ray, limit: Distance, spheres: seq<Sphere>, excluded: seq<nat>): (r: Option<Hit>)
    ensures r.None? <==> forall j: nat :: j < |spheres| ==> !Eligible(m, ray, limit, spheres, excluded, j)
    ensures r.Some? ==> IsNearest(m, ray, limit, spheres, excluded, r.value, |spheres|)
    ensures r.Some? ==> r.value.index < |spheres| && r.value.index !in excluded && Below(r.value.sqrDistance, limit)
    ensures |spheres| == 0 ==> r.None?
  {
    ScanCorrect(m, ray, limit, spheres, excluded, |spheres|);
    Scan(m, ray, limit, spheres, excluded, |spheres|)
  }

  /** The answer is unique: two hits that both satisfy `IsNearest` are the same hit. */
  lemma NearestUnique(m: Math, ray: Ray, limit: Distance, spheres: seq<Sphere>, excluded: seq<nat>, h: Hit, g: Hit, k: nat)
    requires IsNearest(m, ray, limit, spheres, excluded, h, k)
    requires IsNearest(m, ray, limit, spheres, excluded, g, k)
    ensures h == g
  {
  }

  /**
    `rtg::intersect`. Its three output arguments are modelled by passing in the
    pointees' prior values and returning their final values; a null argument
    is a caller that discards the corresponding result. The distance is
    written as `gcem::sqrt` of the squared distance.
   */
  method Intersect(m: Math, ray: Ray, maxDistance: Distance, spheres: seq<Sphere>, exceptionIndexes: seq<nat>,
                   position0: Vector, distance0: Distance, index0: nat)
    returns (found: bool, position: Vector, distance: Distance, index: nat)
    ensures found <==> NearestHit(m, ray, maxDistance, spheres, exceptionIndexes).Some?
    ensures found ==>
      var h := NearestHit(m, ray, maxDistance, spheres, exceptionIndexes).value;
      position == h.position && distance == Finite(m.sqrt(h.sqrDistance)) && index == h.index
    ensures !found ==> position == position0 && distance == distance0 && index == index0
  {
    found, position, distance, index := false, position0, distance0, index0;
    var sqrMin := SquareOf(maxDistance);
    for i := 0 to |spheres|
      invariant found <==> Scan(m, ray, maxDistance, spheres, exceptionIndexes, i).Some?
      invariant found ==>
        var h := Scan(m, ray, maxDistance, spheres, exceptionIndexes, i).value;
        sqrMin == Finite(h.sqrDistance) && position == h.position &&
        distance == Finite(m.sqrt(h.sqrDistance)) && index == h.index
      invariant !found ==>
        sqrMin == SquareOf(maxDistance) && position == position0 && distance == distance0 && index == index0
    {
      if i in exceptionIndexes {
        continue;
      }
      var hit := Rtm.Intersect(m, spheres[i].Geometry(), ray);
      if hit.Some? {
        var sqr := SqrMagnitude(Sub(ray.start, hit.value));
        if Less(sqr, sqrMin) {
          sqrMin := Finite(sqr);
          position := hit.value;
          distance := Finite(m.sqrt(sqr));
          index := i;
          found := true;
        }
      }
    }
  }
}
