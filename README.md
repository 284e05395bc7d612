# RaytracingCPU in Dafny

This project models RaytracingCPU, a small CPU ray caster. It reads a camera,
a list of coloured spheres and a point light. For every pixel it casts one
primary ray, looks for the nearest sphere the ray enters, and casts a shadow
ray from that point towards the light. The pixel is black on a miss or when
the point is in shadow. Otherwise it gets the sphere's colour scaled by the
cosine between the surface direction and the light direction. The image is
written as a binary PPM.

There are five modules:

- `Wrappers` holds the `Option` used for output arguments.
- `Gcem` is the maths library. Its `sqrt`, `acos`, `sin` and `cos` are fields of a `Math` record that every member needing them takes as a parameter.
- `Rtm` is `rtm.h`: vectors, rays, spheres and the ray-sphere entry test.
- `Rtg` is `rtg.h`: camera, view frustum, screen rays and the nearest-hit query over a sphere list.
- `Raytracer` is `Source.cpp`: per-pixel shading and the image loop of `main`.

The source's float arithmetic is modelled over the reals. The default
arguments of the source's constructors are these definitions:

- `Rtm.Zero`, the vector `{ 0, 0, 0 }` (rtm.h:22-28)
- `Rtm.DefaultRay`, the ray `rtm::ray()` (rtm.h:158)
- `Rtm.DefaultSphere`, the sphere `rtm::sphere()` (rtm.h:167)
- `Rtg.DefaultCamera`, the camera `rtg::camera()` (rtg.h:17-21)
- `Rtg.DefaultSphere`, the coloured sphere `rtg::sphere()` (rtg.h:50)
- `Rtg.DefaultScene`, the scene `rtg::scene()` (rtg.h:59)

Some definitions carry no contract of their own and are used by the
contracts below:

- `Deg2Rad` and `Rad2Deg` (rtm.h:10-20)
- `Add`, `Sub` and `Scale` (rtm.h:30-46)
- `Magnitude`, `CosAngle` and `Normalize` (rtm.h:75-98)
- `Rotate`, built from `Azimuth`, `Inclination` and `FromSpherical` (rtm.h:118-139)
- `MakeRay` (rtm.h:153-159)
- `Discriminant` and `NearRoot`, the `D` and `m` of rtm.h:173-178
- `Gcem.NonNegativeSqrt`, the one property of `gcem::sqrt` that a lemma may assume: it never returns a negative value

In the same way:

- The search over spheres is specified by `Rtg.Candidate`, `Rtg.Eligible`, `Rtg.IsNearest` and `Rtg.Scan`. `Candidate`'s own contract only unfolds its body, for the search lemmas to use.
- The loop method `Rtg.Intersect` is proved against them.
- The shading function `Raytracer.Raytrace` is specified over `Rtg.NearestHit`.
- The method `Raytracer.RaytraceByQueries`, which runs the source's two loop calls, is proved equal to `Raytrace`.

## Model

| member | source | states |
|---|---|---|
| `Rtm.AngleRoundTrip` | RaytracingCPU/rtm.h:10-20 | degrees to radians and back, and radians to degrees and back, are the identity |
| `Rtm.Deg2RadMonotonic` | RaytracingCPU/rtm.h:10-20 | both angle conversions preserve order |
| `Rtm.AddSubCancel` | RaytracingCPU/rtm.h:30-40 | subtracting `b` undoes adding `b` and the reverse; vector addition is commutative |
| `Rtm.ScaleLinear` | RaytracingCPU/rtm.h:30-46 | scaling distributes over addition, two scalings compose into one, scaling by 1 is the identity |
| `Rtm.VectorCell.constructor` | RaytracingCPU/rtm.h:22-28 | a new cell holds the given components |
| `Rtm.VectorCell.Set` | RaytracingCPU/rtm.h:183-186 | writing through the output argument replaces the whole stored vector |
| `Rtm.VectorCell.ScaleBy` | RaytracingCPU/rtm.h:48-53 | `a *= k` leaves `a * k` in place of `a` |
| `Rtm.DotSymmetric` | RaytracingCPU/rtm.h:81-85 | the dot product is symmetric, additive and homogeneous in its first argument |
| `Rtm.SqrMagnitude` | RaytracingCPU/rtm.h:69-73 | the squared length is never negative, is zero for the zero vector, and is the vector's dot product with itself |
| `Rtm.Projections` | RaytracingCPU/rtm.h:100-116 | each projection keeps two components and zeroes the third; each is idempotent; the three projections sum to twice the vector; projecting does not lengthen |
| `Rtm.Interpolate` | RaytracingCPU/rtm.h:141-145 | parameter 0 gives the first end point and parameter 1 gives the second |
| `Rtm.Mix` | RaytracingCPU/rtm.h:147-151 | `mix(a, b, k)` is interpolation from `b` towards `a` with parameter `k` |
| `Rtm.Intersect` | RaytracingCPU/rtm.h:170-189 | no hit exactly when the discriminant is negative or the near root is negative; otherwise the hit point is the start plus the normalised direction times the non-negative near root |
| `Rtm.NoHitAway` | RaytracingCPU/rtm.h:170-189 | with a non-negative `sqrt`, a ray that starts strictly outside a sphere and does not point towards its centre never enters it |
| `Rtm.SqrMagnitudeScale` | RaytracingCPU/rtm.h:42-46 | scaling a vector by `k` multiplies its squared length by `k * k` |
| `Rtm.DefaultRayIsZero` | RaytracingCPU/rtm.h:158 | the default ray starts at the origin, and its direction, the normalised zero vector, is the zero vector under the model's zero-divisor fallback (a NaN vector in the source) |
| `Rtm.IntersectInto` | RaytracingCPU/rtm.h:170-189 | the result does not depend on the output argument; a non-null pointee receives the entry point on a hit and is untouched on a miss |
| `Rtm.QuotZero` | RaytracingCPU/rtm.h:93-98 | zero divided by any magnitude is zero, and so is the model's zero-divisor fallback |
| `Rtm.Clamp` | RaytracingCPU/rtm.h:191-195 | the result lies in `[min, max]` when the bounds are ordered; values strictly inside pass through; the upper bound is tested first |
| `Rtg.View` | RaytracingCPU/rtg.h:24-34 | four corners; opposite corners sum to the same vector, the total of the four rotations of the forward vector |
| `Rtg.ScreenCoordinate` | RaytracingCPU/rtg.h:39-40 | every on-screen pixel has a parameter in `[0, 1)`; pixel 0 has parameter 0 |
| `Rtg.ScreenCoordinateFraction` | RaytracingCPU/rtg.h:39-40 | on a non-empty screen the parameter times the extent is the pixel coordinate |
| `Rtg.ScreenDirection` | RaytracingCPU/rtg.h:36-43 | pixel (0, 0) points at corner 0; the top row runs from corner 0 towards corner 1; the left column runs from corner 0 towards corner 3 |
| `Rtg.ScreenRay` | RaytracingCPU/rtg.h:36-43 | the ray starts at the camera position; pixel (0, 0) is the ray towards corner 0 |
| `Rtg.DefaultSphereGeometry` | RaytracingCPU/rtg.h:50 | the default coloured sphere extends the default `rtm::sphere` |
| `Rtg.CandidateDistance` | RaytracingCPU/rtg.h:76-77 | the squared distance of a sphere's entry point from the ray start is the square of the non-negative near root times the squared length of the normalised direction, so for a unit direction the distance is the near root itself |
| `Rtg.ScanTakes` | RaytracingCPU/rtg.h:77-92 | a hit nearer than the best so far, or within the limit when there is none, becomes the nearest hit of the longer prefix |
| `Rtg.ScanKeeps` | RaytracingCPU/rtg.h:71-77 | an excluded, missed or farther sphere leaves the best hit and its nearest-hit property unchanged |
| `Rtg.ScanCorrect` | RaytracingCPU/rtg.h:66-96 | after `k` spheres the search has found nothing exactly when none of them is eligible, and otherwise the nearest eligible hit, with the lowest index winning ties |
| `Rtg.NearestHit` | RaytracingCPU/rtg.h:62-97 | nothing is found exactly when no sphere is hit within the limit outside the exclusion list; otherwise the nearest such hit, which is in range, not excluded and within the limit |
| `Rtg.NearestUnique` | RaytracingCPU/rtg.h:77-79 | the strict comparison makes the answer unique: two nearest hits are the same hit |
| `Rtg.Intersect` | RaytracingCPU/rtg.h:62-97 | the loop returns true exactly when `NearestHit` finds a hit; it then yields that hit's position, its distance as `sqrt` of the squared distance, and its index; on false the pointees keep their prior values |
| `Raytracer.PrimaryHit` | RaytracingCPU/Source.cpp:12 | the unbounded, unexcluded query finds nothing exactly when no sphere is hit; otherwise it finds the nearest hit |
| `Raytracer.ShadowRay` | RaytracingCPU/Source.cpp:14 | the shadow ray starts at the hit point |
| `Raytracer.Raytrace` | RaytracingCPU/Source.cpp:7-25 | an empty scene renders black |
| `Raytracer.RaytraceMiss` | RaytracingCPU/Source.cpp:12-24 | a ray that enters no sphere is black |
| `Raytracer.RaytraceShadowed` | RaytracingCPU/Source.cpp:14-18 | if another sphere lies between the nearest hit and the light, the colour is black; the blocker is never the hit sphere itself |
| `Raytracer.RaytraceLit` | RaytracingCPU/Source.cpp:20-21 | if no sphere blocks the light, the colour is the hit sphere's colour times the cosine between the hit-to-centre direction `center - p` and the light-to-hit direction `p - light` |
| `Raytracer.RaytraceByQueries` | RaytracingCPU/Source.cpp:7-25 | the two calls of the loop method, with the source's initial pointee values, compute `Raytrace` |
| `Raytracer.PrepareCamera` | RaytracingCPU/Source.cpp:32-36 | the prepared camera keeps the position and has the normalised forward vector; its angles are the degree inputs in radians (they convert back to the inputs) |
| `Raytracer.PixelCell` | RaytracingCPU/Source.cpp:57-59 | on a non-empty image, every pixel number gives a row below the height and a column below the width, and `i * width + j` is the pixel number again |
| `Raytracer.CellPixel` | RaytracingCPU/Source.cpp:58-71 | every row and column gives a pixel number on the image that maps back to the same row and column, so pixels and cells correspond one to one |
| `Raytracer.PixelIndexes` | RaytracingCPU/Source.cpp:51-55 | `pixel_indexes` holds `0, 1, …, n - 1` |
| `Raytracer.RenderPixel` | RaytracingCPU/Source.cpp:57-60 | the per-pixel step stores into cell `i * width + j`, which is the pixel number itself, the colour of that pixel's primary ray |
| `Raytracer.PixelColorsAt` | RaytracingCPU/Source.cpp:57-60 | entry `p` of the list of the first `n` pixel colours is the colour of pixel `p` |
| `Raytracer.Render` | RaytracingCPU/Source.cpp:49-60 | the image has `height * width` cells; the cell of every pixel holds the colour of the primary ray through that pixel's row and column |

## Left out

- The `operator<<` and `operator>>` stream operators (rtm.h:55-67), reading `input.txt` and writing `output.ppm`: these are I/O. The PPM header and the `255 * clamp(0, 1, ·)` quantisation to `char` are not modelled beyond `Rtm.Clamp`.
- Reading the scene: `Render` takes the camera and scene as parameters. `PrepareCamera` stands for the conversions `main` applies after reading.
- `std::execution::par_unseq`: the pixel loop is modelled as sequential. Cells do not overlap (`PixelCell`, `CellPixel`), so the order of the writes does not change the result.
- `malloc` and `free` of the image: modelled as a fresh array.
- `gcem.hpp` is not part of this model. Its routines are uninterpreted parameters, so no property depends on their values, except that `Rtm.NoHitAway` assumes `sqrt` is never negative.
- Float rounding, `NaN` and infinities: reals are used throughout.
  - `INFINITY` as a distance is `Rtg.Distance.Infinity`.
  - A float division by zero yields 0 through `Rtm.Quot`. This covers normalising or taking the cosine of a zero vector, and a zero screen extent.
  - One consequence changes the whole image. Take a forward vector with zero x and y components, such as the default camera's `(0, 0, 1)` (rtg.h:19). The source's azimuth is then `acos(0 / 0)`, a NaN (rtm.h:90, rtm.h:130), so every frustum corner and every primary ray is NaN. `rtm::intersect` then reports a hit at a NaN point, because both of its tests `NaN < 0` are false (rtm.h:176, rtm.h:179). `rtg::intersect` rejects that point, because `NaN < sqr_min_intersection_distance` is false (rtg.h:77). So the source renders such a camera's image all black, while the model's azimuth is `acos(0)` and its image shows the scene. This follows from IEEE 754 comparisons with NaN being false.
- `size_t` wrap-around: unbounded naturals are used. `(size_t)-1` is the constant `Rtg.SizeMax`.
- `height * width` overflow is not modelled.
- Null output arguments of `rtg::intersect` are modelled as a caller that discards the corresponding result.
- `std::find` over the exception indexes is modelled as sequence membership.
- `Rtm.Rotate`, `Rtm.Normalize`, `Rtm.Magnitude` and `Rtm.CosAngle` carry no geometric contract: they depend on the unspecified `gcem` routines. Nothing is proved about the entry point lying on the sphere's surface either, since that would need exact square roots.
- Rtm.Intersect: nothing is proved about a ray that starts inside a sphere. Over an arbitrary non-negative `sqrt` the model does report a hit there (for `sqrt` constantly 0, a start at the centre of a unit sphere gives `D = 1` and near root 0), and stating where the source's hit lies would need an exact square root.
- Rtm.NoHitAway: assumes only that `sqrt` is never negative, so it covers rays pointing away from the centre and not rays that pass beside the sphere.
- SqrMagnitude: states only that the zero vector has squared length 0, not the converse (that squared length 0 implies the zero vector). The converse needs nonlinear real reasoning about sums of squares that the solver does not carry out reliably.
- `Raytracer.Raytrace`: its own contract covers only the empty scene. The three cases are stated by `RaytraceMiss`, `RaytraceShadowed` and `RaytraceLit`.
- Render: states the stored colour per pixel number, at row `p / width` and column `p % width`. The row-and-column form follows from `CellPixel`.
