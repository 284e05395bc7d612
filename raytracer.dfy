/**
  The renderer of `Source.cpp`: the shading of one primary ray (`raytrace`)
  and the image loop of `main`, which prepares the camera, numbers the pixels
  and stores the colour of every pixel in a row-major image.
 */
module Raytracer {
  import opened Wrappers
  import opened Gcem
  import opened Rtm
  import opened Rtg

  /** The colour `{ 0, 0, 0 }` returned for a miss and for a point in shadow. */
  const Black: Vector := Zero

  /** The primary query: nothing excluded, no distance limit. */
  function PrimaryHit(m: Math, ray: Ray, scene: Scene): (h: Option<Hit>)
    ensures h.None? <==> forall j: nat :: j < |scene.spheres| ==> !Eligible(m, ray, Infinity, scene.spheres, [], j)
    ensures h.Some? ==> h.value.index < |scene.spheres| && IsNearest(m, ray, Infinity, scene.spheres, [], h.value, |scene.spheres|)
  {
    NearestHit(m, ray, Infinity, scene.spheres, [])
  }

  /** The ray from a surface point towards the light. */
  function ShadowRay(m: Math, scene: Scene, p: Vector): (r: Ray)
    ensures r.start == p
  {
    MakeRay(m, p, Sub(scene.light, p))
  }

  /** How far the shadow query looks: the distance from the point to the light. */
  function ShadowLimit(m: Math, scene: Scene, p: Vector): Distance
  {
    Finite(Magnitude(m, Sub(scene.light, p)))
  }

  /**
    Sphere `j` blocks the light from hit `h`: it is not the sphere that was
    hit, and the shadow ray enters it before reaching the light.
   */
  predicate Blocks(m: Math, scene: Scene, h: Hit, j: nat)
  {
    Eligible(m, ShadowRay(m, scene, h.position), ShadowLimit(m, scene, h.position), scene.spheres, [h.index], j)
  }

  /** The colour of hit `h` when lit: its sphere's colour scaled by the cosine term. */
  function Lit(m: Math, scene: Scene, h: Hit): Vector
    requires h.index < |scene.spheres|
  {
    var s := scene.spheres[h.index];
    Scale(s.color, CosAngle(m, Sub(s.center, h.position), Sub(h.position, scene.light)))
  }

  /**
    `raytrace`: black when the ray hits no sphere; black when the nearest hit
    is shadowed; otherwise the hit sphere's colour times the cosine between
    the hit-to-centre and light-to-hit directions. The lemmas below state
    the three cases in terms of the spheres themselves.
   */
  function Raytrace(m: Math, ray: Ray, scene: Scene): (c: Vector)
    ensures |scene.spheres| == 0 ==> c == Black
  {
    match PrimaryHit(m, ray, scene)
    case None => Black
    case Some(h) =>
      if NearestHit(m, ShadowRay(m, scene, h.position), ShadowLimit(m, scene, h.position), scene.spheres, [h.index]).Some?
      then Black
      else Lit(m, scene, h)
  }

  /** A ray that enters no sphere is black. */
  lemma RaytraceMiss(m: Math, ray: Ray, scene: Scene)
    requires forall j: nat :: j < |scene.spheres| ==> !Eligible(m, ray, Infinity, scene.spheres, [], j)
    ensures Raytrace(m, ray, scene) == Black
  {
  }

  /** When another sphere lies between the nearest hit and the light, the pixel is black. */
  lemma RaytraceShadowed(m: Math, ray: Ray, scene: Scene, h: Hit, j: nat)
    requires IsNearest(m, ray, Infinity, scene.spheres, [], h, |scene.spheres|)
    requires Blocks(m, scene, h, j)
    ensures j != h.index
    ensures Raytrace(m, ray, scene) == Black
  {
    NearestUnique(m, ray, Infinity, scene.spheres, [], PrimaryHit(m, ray, scene).value, h, |scene.spheres|);
  }

  /** When nothing blocks the light from the nearest hit, the pixel is that sphere lit. */
  lemma RaytraceLit(m: Math, ray: Ray, scene: Scene, h: Hit)
    requires IsNearest(m, ray, Infinity, scene.spheres, [], h, |scene.spheres|)
    requires forall j: nat :: j < |scene.spheres| ==> !Blocks(m, scene, h, j)
    ensures h.index < |scene.spheres|
    ensures Raytrace(m, ray, scene) == Lit(m, scene, h)
  {
    NearestUnique(m, ray, Infinity, scene.spheres, [], PrimaryHit(m, ray, scene).value, h, |scene.spheres|);
    var shadow := NearestHit(m, ShadowRay(m, scene, h.position), ShadowLimit(m, scene, h.position), scene.spheres, [h.index]);
    forall j: nat | j < |scene.spheres|
      ensures !Eligible(m, ShadowRay(m, scene, h.position), ShadowLimit(m, scene, h.position), scene.spheres, [h.index], j)
    {
      assert !Blocks(m, scene, h, j);
    }
  }

  /**
    `raytrace` as the source writes it: two calls of the `rtg::intersect`
    loop, with the primary query's pointees starting at a default vector,
    `INFINITY` and `(size_t)-1`, and the shadow query's results discarded.
   */
  method RaytraceByQueries(m: Math, ray: Ray, scene: Scene) returns (c: Vector)
    ensures c == Raytrace(m, ray, scene)
  {
    var found, position, distance, index :=
      Rtg.Intersect(m, ray, Infinity, scene.spheres, [], Zero, Infinity, SizeMax);
    if found {
      var toLight := Sub(scene.light, position);
      var blocked, ignoredPosition, ignoredDistance, ignoredIndex :=
        Rtg.Intersect(m, MakeRay(m, position, toLight), Finite(Magnitude(m, toLight)), scene.spheres, [index],
                      Zero, Infinity, SizeMax);
      if blocked {
        return Black;
      }
      var s := scene.spheres[index];
      return Scale(s.color, CosAngle(m, Sub(s.center, position), Sub(position, scene.light)));
    }
    return Black;
  }

  /**
    The camera of `main`: the forward vector is normalised and the two fields
    of view, read in degrees, are converted to radians.
   */
  function PrepareCamera(m: Math, position: Vector, forward: Vector, hFovDeg: real, vFovDeg: real): (c: Camera)
    ensures c.position == position
    ensures Rad2Deg(c.hFov) == hFovDeg && Rad2Deg(c.vFov) == vFovDeg
    ensures c.forward == Normalize(m, forward)
  {
    AngleRoundTrip(hFovDeg);
    AngleRoundTrip(vFovDeg);
    Camera(position, Normalize(m, forward), Deg2Rad(hFovDeg), Deg2Rad(vFovDeg))
  }

  /** Multiplication by a non-negative factor keeps order. */
  lemma MulLeft(a: int, b: int, c: nat)
    requires a <= b
    ensures a * c <= b * c
  {
  }

  /**
    Pixel `p` of a `width` by `height` image is row `p / width`, column
    `p % width`, and the image cell `row * width + column` it is stored in
    is `p` itself.
   */
  lemma PixelCell(width: nat, height: nat, pixel: nat)
    requires pixel < height * width
    ensures 0 < width
    ensures pixel / width < height
    ensures pixel % width < width
    ensures (pixel / width) * width + pixel % width == pixel
  {
    if height <= pixel / width {
      MulLeft(height, pixel / width, width);
    }
  }

  /**
    Conversely row `i`, column `j` is the pixel `i * width + j`, which is on
    the image and gives back `i` and `j`: pixels and cells correspond one
    to one.
   */
  lemma CellPixel(width: nat, height: nat, i: nat, j: nat)
    requires i < height
    requires j < width
    ensures i * width + j < height * width
    ensures (i * width + j) / width == i
    ensures (i * width + j) % width == j
  {
    MulLeft(i + 1, height, width);
    var q := (i * width + j) / width;
    if q < i {
      MulLeft(q + 1, i, width);
    } else if i < q {
      MulLeft(i + 1, q, width);
    }
  }

  /** `pixel_indexes`: the vector of the `n` pixel numbers `0, 1, …, n - 1`. */
  method PixelIndexes(n: nat) returns (a: array<nat>)
    ensures fresh(a)
    ensures a.Length == n
    ensures forall i :: 0 <= i < n ==> a[i] == i
  {
    a := new nat[n];
    for i := 0 to n
      invariant forall k :: 0 <= k < i ==> a[k] == k
    {
      a[i] := i;
    }
  }

  /** The colour `main` stores for row `i`, column `j`. */
  function PixelColor(m: Math, camera: Camera, scene: Scene, width: nat, height: nat, i: nat, j: nat): Vector
  {
    Raytrace(m, ScreenRay(m, camera.position, View(m, camera), width, height, j, i), scene)
  }

  /** The colour of pixel number `p`, at row `p / width` and column `p % width`. */
  function PixelNumberColor(m: Math, camera: Camera, scene: Scene, width: nat, height: nat, p: nat): Vector
    requires 0 < width
  {
    PixelColor(m, camera, scene, width, height, p / width, p % width)
  }

  /**
    The body of the per-pixel lambda of `main`: pixel number `pixel` is split
    into row `pixel / width` and column `pixel % width`, the primary ray
    through that screen point is traced, and the result goes to cell
    `i * width + j`, which is the pixel number itself.
   */
  method RenderPixel(m: Math, width: nat, height: nat, camera: Camera, view: seq<Vector>, scene: Scene, pixel: nat)
    returns (cell: nat, color: Vector)
    requires view == View(m, camera)
    requires pixel < height * width
    ensures 0 < width
    ensures cell == pixel
    ensures color == PixelNumberColor(m, camera, scene, width, height, pixel)
  {
    PixelCell(width, height, pixel);
    var i, j := pixel / width, pixel % width;
    color := RaytraceByQueries(m, ScreenRay(m, camera.position, view, width, height, j, i), scene);
    cell := i * width + j;
  }

  /** The colours of the first `n` pixel numbers, in order. */
  function PixelColors(m: Math, camera: Camera, scene: Scene, width: nat, height: nat, n: nat): (s: seq<Vector>)
    requires n == 0 || 0 < width
    ensures |s| == n
  {
    if n == 0 then [] else PixelColors(m, camera, scene, width, height, n - 1) + [PixelNumberColor(m, camera, scene, width, height, n - 1)]
  }

  /** Entry `p` of the colour list is the colour of pixel number `p`. */
  lemma {:induction false} PixelColorsAt(m: Math, camera: Camera, scene: Scene, width: nat, height: nat, n: nat, p: nat)
    requires 0 < width
    requires p < n
    ensures PixelColors(m, camera, scene, width, height, n)[p] == PixelNumberColor(m, camera, scene, width, height, p)
  {
    if p < n - 1 {
      PixelColorsAt(m, camera, scene, width, height, n - 1, p);
    }
  }

  /**
    The image loop of `main`: every pixel number of `pixel_indexes` is split
    into its row and column, and the colour of the primary ray through that
    screen point is stored in the cell of that row and column.
   */
  method Render(m: Math, width: nat, height: nat, camera: Camera, scene: Scene) returns (image: array<Vector>)
    ensures fresh(image)
    ensures image.Length == height * width
    ensures forall p :: 0 <= p < image.Length ==>
      0 < width && image[p] == PixelNumberColor(m, camera, scene, width, height, p)
  {
    var view := View(m, camera);
    image := new Vector[height * width];
    var pixelIndexes := PixelIndexes(height * width);
    ghost var expected := PixelColors(m, camera, scene, width, height, 0);
    for t := 0 to pixelIndexes.Length
      invariant forall k :: 0 <= k < pixelIndexes.Length ==> pixelIndexes[k] == k
      invariant t == 0 || 0 < width
      invariant expected == PixelColors(m, camera, scene, width, height, t)
      invariant image[..t] == expected
    {
      var cell, color := RenderPixel(m, width, height, camera, view, scene, pixelIndexes[t]);
      image[cell] := color;
      expected := expected + [color];
      assert image[..t + 1] == image[..t] + [image[t]];
    }
    forall p | 0 <= p < image.Length
      ensures 0 < width && image[p] == PixelNumberColor(m, camera, scene, width, height, p)
    {
      assert image[p] == image[..image.Length][p];
      PixelColorsAt(m, camera, scene, width, height, image.Length, p);
    }
  }
}
