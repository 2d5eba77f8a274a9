# trcr core, modelled in Dafny

This project models the core of `trcr`, a small ray tracer written in Rust.

The ray tracer works like this:
- A fixed camera looks down the negative z axis through a 200 by 200 pixel viewport.
- `render` casts one primary ray through the centre of every pixel, row by row.
- `trace` scans the scene's objects for the nearest hit.
- `is_shadow` tests the hit point against every light and object.
- The pixel is coloured with the background colour, black, or the colour of the object hit.
- `main` reads the frame back into an image with a running index.

The geometry is modelled in these files:
- `src/vec3.rs`: vector algebra.
- `src/camera.rs`: the camera and its pixel-to-ray mapping.
- `src/sphere.rs`: the older sphere. `main.rs` declares this one.
- `src/objects.rs`: the later sphere and the axis-aligned plane.

Modules, one per source file:
- `Vectors` (vec3.rs).
- `Cameras` (camera.rs).
- `Spheres` (sphere.rs).
- `Objects` (objects.rs).
- From main.rs:
  - `Colours`: `Colour` and `from_24bit_int`.
  - `Rays`: `Ray` and `Ray::new`.
  - `Tracer`: lights, scene, trace, is_shadow, render and main's read-back.
- Shared helpers:
  - `Ints`: the u32 type.
  - `Optional`: Rust's `Option`.

## How the model treats the source's types and loops

- **Numbers.**
  - An `f64` is a `real`.
  - `f64::sqrt` cannot be computed over the reals, so it is a function the caller supplies (`Vectors.Maths.sqrt`).
  - Properties that need a real square root take it as a hypothesis: `SqrtNonNegative`, or the exact root `ExactSqrt`.
  - Normalising a zero vector gives NaN components in the source. Here it gives a caller-supplied stand-in vector (`Maths.nan`).
- **Colours.** Colour bytes and the packed colour are bit-vectors (`bv8`, `bv32`), so masking and shifting are modelled bit for bit.
- **Scene objects.**
  - The `SceneObject` trait objects become a datatype with one case per implementor.
  - `RayIntersection` refers to the object hit by its index in the scene.
- **Loops.**
  - `trace`, `is_shadow`, `render` and main's read-back are methods with loops.
  - Each method is proved against a function:
    - `NearestHit` for trace's scan.
    - `Shadowed` for is_shadow.
    - `TraceColour` for the colour trace picks.
    - `Frame` for render.
  - The function's properties are proved as lemmas.
- **Everything else** is a pure function, as in the source.

## Model

| member | source | states |
|---|---|---|
| Colours.Colour.From24BitInt | src/main.rs:173-178 | Bits 16-23 of the packed colour become red, bits 8-15 green and bits 0-7 blue; shifted back into place they give exactly the low 24 bits of the input |
| Colours.From24BitIntRoundTrip | src/main.rs:173-178 | Decoding r * 65536 + g * 256 + b gives back the bytes r, g, b |
| Colours.From24BitIntIgnoresHighBits | src/main.rs:173-178 | Bits above bit 23 are masked off: decoding c and c mod 2^24 give the same colour |
| Vectors.DotSymmetric | src/vec3.rs:15-17 | The dot product, a sum of componentwise products, does not depend on operand order |
| Vectors.DotSelf | src/vec3.rs:15-17 | A vector dotted with itself is non-negative, and positive for every non-zero vector |
| Vectors.MagPositive | src/vec3.rs:19-21 | With an exact square root, mag is non-negative and positive for every non-zero vector |
| Vectors.NormalisedScalesBack | src/vec3.rs:23-26 | With an exact square root, normalised divides each component by mag: scaling the result by mag gives the vector back |
| Vectors.NormalisedUnitX | src/vec3.rs:83 | The unit test: (1, 0, 0) normalised is (1, 0, 0) |
| Vectors.AddSubCancel | src/vec3.rs:32-42 | Add and Sub act componentwise, so (a + b) - b is a |
| Vectors.NegInvolutive | src/vec3.rs:64-66 | Neg flips every component: it is scaling by -1, and negating twice is the identity |
| Vectors.MulExample | src/vec3.rs:76-77 | The unit test: (1, 2, 3) * 2 is (2, 4, 6) |
| Vectors.DivUndoesMul | src/vec3.rs:48-58 | Dividing by a non-zero s undoes scaling by s, and is scaling by 1 / s |
| Rays.Ray.New | src/main.rs:129-134 | The ray keeps its source; for a direction of non-zero magnitude, its direction scaled by that magnitude is the given direction |
| Rays.NewDirectionIsUnit | src/main.rs:129-134 | With an exact square root, a ray built from a non-zero direction has a direction of unit length pointing the same way |
| Cameras.Camera.Fixed | src/camera.rs:30-47 | 200 by 200 pixels; viewport 2 wide and 1 away; camera at the origin looking along -z; px_size * px_per_row equals the viewport width; the first pixel centre is (-1, 1, -1) moved half a pixel right and down |
| Cameras.Camera.PrimaryRay | src/camera.rs:49-57 | The primary ray starts at the camera; its direction, scaled by the length of px_loc - loc, is px_loc - loc |
| Cameras.FixedPixelDepth | src/camera.rs:49-57 | Every pixel centre of the fixed camera lies at z = -1 |
| Cameras.FixedGridCentred | src/camera.rs:30-57 | The last pixel centre, (199, 199), mirrors the first: the bottom-right corner (1, -1, -1) moved half a pixel left and up |
| Cameras.PixelMonotone | src/camera.rs:50-55 | With a positive pixel size, a larger x index moves the pixel centre right and a larger y index moves it down |
| Cameras.PixelInjective | src/camera.rs:50-55 | With a positive pixel size, distinct index pairs give distinct pixel centres |
| Cameras.FixedPrimaryRaysDistinct | src/camera.rs:49-57 | With an exact square root, distinct pixels of the fixed camera get distinct primary ray directions |
| Spheres.Sphere.Intersect | src/sphere.rs:11-36 | No hit exactly when tca < 0 or d2 > radius²; any hit is non-negative: t0 when t0 >= 0, else t1 |
| Spheres.RootsOrdered | src/sphere.rs:24-35 | After both rejections: thc >= 0 and t1 = t0 + 2 thc = tca + thc, so t0 <= t1 and t1 >= 0; the "both negative" and "t0 > 0, t1 < 0" branches are unreachable |
| Spheres.Sphere.SurfaceNormal | src/sphere.rs:43-45 | The normal, scaled by the point's distance from the centre, is the point less the centre |
| Spheres.HitOffSurface | src/sphere.rs:24-26 | Radius 2, centre 3 units down the ray: the reported hit is 7 along, 4 from the centre, not on the sphere |
| Objects.Sphere.Intersect | src/objects.rs:13-38 | tca < 0 gives no hit; d2 > radius² gives no hit; any hit is one of the roots tca - thc and tca + thc |
| Objects.IntersectNearestRoot | src/objects.rs:16-37 | With a non-negative square root: no hit exactly when one of the two rejections applies; otherwise t0 <= t1; the hit is t0 when t0 >= 0, else t1; it is never negative; with both roots ahead it is the nearer |
| Objects.IntersectOnSurface | src/objects.rs:13-38 | With an exact square root and a unit-length direction, the hit point lies on the sphere: squared distance from the centre is radius² |
| Objects.ExampleHit | src/objects.rs:13-38 | The same example as the older sphere is hit 1 unit along the ray, where it enters the sphere |
| Objects.Sphere.SurfaceNormal | src/objects.rs:45-47 | The normal, scaled by the point's distance from the centre, is the point less the centre |
| Objects.XzPlane.New | src/objects.rs:68-72 | The bounds, height and colour are kept; p0 is (x_min, y, z_min) and lies at the plane's height; the normal is the y axis divided by sqrt(1) |
| Objects.NewNormalIsUnitY | src/objects.rs:70 | With an exact square root, the normal is (0, 1, 0) |
| Objects.XzPlane.Intersect | src/objects.rs:82-104 | No hit exactly when dir·normal < 1e-6 or p0 lies behind the source along the normal; any hit t is non-negative with t * (dir·normal) = (p0 - source)·normal; the bounds are never applied |
| Objects.XzPlane.IntersectTwoSided | src/objects.rs:82-104 | No hit exactly when dir·normal is within 1e-6 of zero, or when the numerator and denominator have opposite signs; any hit is non-negative and satisfies the plane equation |
| Objects.IntersectOnPlane | src/objects.rs:89-97 | A reported hit point lies on the plane: the point less p0 is orthogonal to the normal |
| Objects.TwoSidedAgrees | src/objects.rs:83-87 | For rays with dir·normal >= 1e-6, the two-sided test answers exactly as the written one |
| Objects.DownwardRaysMissed | src/objects.rs:83-87 | With normal (0, 1, 0), every downward ray is rejected wherever the plane lies |
| Objects.FloorSeenFromAbove | src/objects.rs:74-104 | The floor at y = -1 (x in [-1, 1], z in [-4, -2]), seen straight down from the origin: the written test reports no hit; the intended one reports distance 1, at a point outside the z bounds because the bounds test always accepts |
| Tracer.Light.DistanceTo | src/main.rs:191-196 | A distant light is at infinity and only a distant light is; a point light is \|loc - point\| away |
| Tracer.Light.Direction | src/main.rs:199-204 | A point light's direction added to its location reaches the point; a distant light's direction is its fixed dir, whatever the point |
| Tracer.PointLightDistance | src/main.rs:191-204 | A point light's distance from a point is the length of the direction it shines on that point |
| Tracer.NearestHit | src/main.rs:58-72 | The intersection the scan keeps names an object of the scene, and that object's intersect reports its distance |
| Tracer.NearestHitIsNearest | src/main.rs:58-72 | The scan keeps nothing exactly when no object is hit; otherwise its distance is <= every hit and < the hit of every earlier object, so the first object wins ties |
| Tracer.Trace | src/main.rs:56-87 | trace returns the colour TraceColour specifies |
| Tracer.TraceColourCases | src/main.rs:73-86 | No object hit gives BACKGROUND_COLOUR; a hit gives BLACK in shadow, else the nearest object's colour at the hit point |
| Tracer.IsShadow | src/main.rs:89-112 | is_shadow is true exactly when some (light, object) pair has a shadow-ray hit d with 0 <= d < the light's distance from that hit point |
| Tracer.NoLightsNoShadow | src/main.rs:98-111 | With no lights nothing is in shadow |
| Tracer.SceneObject.Intersect | src/main.rs:144-146 | Each object answers with its own file's intersection, the plane with the test as written; neither the legacy sphere nor the plane reports a hit behind the ray's source, and a plane hit lies on the plane |
| Tracer.FloorSceneShowsBackground | src/main.rs:56-87 | With the plane test as written, a scene holding only a floor with normal (0, 1, 0) shows the background colour to every ray heading straight down, whatever the lights |
| Tracer.HitsAhead | src/main.rs:145-146 | With a non-negative square root, no scene object reports a hit behind the ray's source |
| Tracer.DistantLightOccludedByAnyHit | src/main.rs:103-105 | A distant light is infinitely far, so an object occludes it exactly when the shadow ray hits it at all |
| Tracer.ShadowRayTowardsPointLight | src/main.rs:99-101 | With an exact square root, the shadow ray starts at the point and heads straight for the point light |
| Tracer.ObjectSurfaceConstant | src/main.rs:148-152 | Every object's colour is the same at every point; none casts secondary rays; the plane's normal is the same at every point |
| Tracer.RowsLayout | src/main.rs:46-51 | In a frame built row by row, pixel (x, y) is at index y * width + x |
| Tracer.FrameLayout | src/main.rs:44-54 | render's frame holds row_count * px_per_row colours; index y * px_per_row + x holds the trace of pixel (x, y)'s primary ray |
| Tracer.Render | src/main.rs:44-54 | render's nested loops push exactly the frame FrameLayout describes |
| Tracer.ReadBack | src/main.rs:30-38 | The image is px_per_row by row_count; its pixel (x, y) is frame entry y * px_per_row + x, read with the running index |
| Tracer.ReadBackRow | src/main.rs:33-37 | One row of the read-back: the index advances by px_per_row; row y takes the next entries; the other rows are unchanged |
| Tracer.MainImage | src/main.rs:18-38 | main renders its scene through the fixed camera into a 200 by 200 image; image pixel (x, y) is the colour traced for camera pixel (x, y) |
| Tracer.MainSphereColour | src/main.rs:19-23 | main's sphere, coloured 0xF4AE22, is red 0xF4, green 0xAE, blue 0x22 |

## Left out

- IEEE-754 behaviour is not modelled:
  - `f64` is a real number, so there is no rounding.
  - There are no NaNs or infinities from arithmetic.
  - `f64::sqrt` is a supplied function. Its accuracy is an explicit hypothesis of the lemmas that need it.
  - The infinite distance of a distant light is a separate `Distance.Infinity` case.
- Vectors.Vec3.Div: requires a non-zero divisor. A zero divisor gives infinities or NaN in the source, and those are not reals. The `Div` impl is used only at src/camera.rs:36, with the divisor 2.0. The other divisions in the source are plain `f64` divisions, written out where they occur.
- Vectors.Vec3.Normalised: a zero vector gives the caller-supplied `Maths.nan`, not NaN components.
- Rays.NewDirectionIsUnit: unit length is proved only under the exact-square-root hypothesis. With f64 rounding it is approximate.
- Writing the image is left out because it is file I/O through the bmp crate:
  - `img.save` to a fixed path;
  - the error `println!`;
  - `Colour::pixel` and the `px!` macro.
- The image is an `array2` of colours that starts black, standing in for bmp's `Image`.
- The `println!` diagnostics in `XzPlane::intersect` and the `log::trace` import are left out. They only log.
- `src/scenes.rs` is not part of this model. It is fixed scene data for a later version of `Light` and an `Intensity` type that these files do not contain. Only its floor plane's dimensions appear, as the input of `Objects.FloorSeenFromAbove`.
- Shading, radiance accumulation and tone mapping do not exist in these files. The colour is the background, black or the object's colour, as `trace` computes it.
- `Box<dyn SceneObject>` dispatch is a datatype with one case per implementor.
  - Of the scene-object modules, `src/main.rs` declares only `sphere`. The two `src/objects.rs` implementors are still included, because they implement the same trait.
- `RayIntersection` holds the index of the object hit rather than a reference.
- Read-back index types:
  - main's read-back loops run over u32 indices; `Tracer.ReadBack` uses integers, which take the same values.
  - The running index is a `usize` in the source; it cannot overflow for a frame that fits in memory.
- Two behaviours are kept as the code has them:
  - `XzPlane::in_bounds` (src/objects.rs:74-77) always accepts. The bounds test is commented out.
  - Normalising a zero vector (src/vec3.rs:23-26) divides by zero. It does not fail with an error.
- The tracer has no error paths. `main`'s only one is the failed save, which is left out with the I/O.

## Findings

| source | as written | input that shows it | evidently intended | confidence | as-written member | corrected member |
|---|---|---|---|---|---|---|
| src/sphere.rs:24-26 | `thc = radius2 - d2` with no square root, and t1 = t0 + 2 thc | centre (0, 0, -3), radius 2, ray from the origin along (0, 0, -1): tca 3, d2 0, thc 4, so t0 = -1 and t1 = 7; the hit reported is 7 along the ray, 4 from the centre | `thc = sqrt(radius2 - d2)`, as src/objects.rs:26 has it, giving the hit 1 along the ray, on the sphere | high, not executed | Spheres.HitOffSurface | Objects.IntersectOnSurface |
| src/objects.rs:83-87 | rejects every ray with `dir·normal < 1e-6`; with the normal (0, 1, 0) that is every ray heading down, not only rays parallel to the plane as the comment at src/objects.rs:84 says | the floor `XzPlane::new(-1.0, -1.0, 1.0, -4.0, -2.0, ...)` of src/scenes.rs:13, ray from the origin along (0, -1, 0): no hit, though the ray reaches y = -1 one unit along, so trace gives the background colour (Tracer.FloorSceneShowsBackground) | reject only when `dir·normal` is within 1e-6 of zero, so the floor is hit at distance 1 | medium, not executed | Objects.FloorSeenFromAbove | Objects.XzPlane.IntersectTwoSided |
