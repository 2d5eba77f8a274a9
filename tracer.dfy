// Model of the tracer in src/main.rs: lights, the scene, the dispatch over
// scene objects, the nearest-hit scan of trace, the shadow test, render's
// frame buffer and main's read-back of that buffer into an image.
module Tracer {
  import opened Ints
  import opened Optional
  import opened Vectors
  import opened Rays
  import opened Colours
  import opened Cameras
  import Spheres
  import Objects

  /** BACKGROUND_COLOUR: what a ray that hits nothing sees. */
  const BackgroundColour := Colour(0x30, 0x30, 0xFF)

  /** BLACK: what a point in shadow looks like. */
  const Black := Colour(0x00, 0x00, 0x00)

  /** An f64 distance that may be infinite, as a distant light's is. */
  datatype Distance = Finite(value: real) | Infinity {

    /** `d < self`, with every real below infinity. */
    predicate Above(d: real) {
      Infinity? || d < value
    }
  }

  /** Light: a point light at a location, or a distant light shining in one
      direction everywhere. */
  datatype Light = Point(loc: Vec3) | Distant(dir: Vec3) {

    /** Light::distance: how far the light is from a location; a distant
        light is infinitely far away. */
    function DistanceTo(m: Maths, location: Vec3): (d: Distance)
      ensures d.Infinity? <==> Distant?
      ensures Point? ==> d.value == loc.Sub(location).Mag(m)
    {
      match this
      case Point(lightLoc) => Finite(lightLoc.Sub(location).Mag(m))
      case Distant(_) => Infinity
    }

    /** Light::direction: the direction the light falls on a point, from the
        light towards the point; a distant light's does not depend on the
        point. */
    function Direction(point: Vec3): (v: Vec3)
      ensures Point? ==> loc.Add(v) == point
      ensures Distant? ==> v == dir
    {
      match this
      case Point(lightLoc) => point.Sub(lightLoc)
      case Distant(lightDir) => lightDir
    }
  }

  /** The implementors of the SceneObject trait: the sphere of src/sphere.rs
      (the one src/main.rs declares), and the sphere and the plane of
      src/objects.rs. */
  datatype SceneObject =
    | LegacySphere(legacy: Spheres.Sphere)
    | Sphere(sphere: Objects.Sphere)
    | Plane(plane: Objects.XzPlane)
  {
    /** SceneObject::intersect: the distance along the ray to the hit, as
        each implementor computes it. Neither the legacy sphere nor the plane
        reports a hit behind the ray's source, and a plane hit lies on the
        plane. */
    function Intersect(m: Maths, ray: Ray): (r: Option<real>)
      ensures !Sphere? && r.Some? ==> r.value >= 0.0
      ensures Plane? && r.Some? ==> ray.At(r.value).Sub(plane.p0).Dot(plane.normal) == 0.0
    {
      match this
      case LegacySphere(s) => s.Intersect(ray)
      case Sphere(s) => s.Intersect(m, ray)
      case Plane(p) => Objects.IntersectOnPlane(p, ray); p.Intersect(ray)
    }

    /** SceneObject::secondary_rays */
    function SecondaryRays(point: Vec3): seq<Ray> {
      match this
      case LegacySphere(s) => s.SecondaryRays(point)
      case Sphere(s) => s.SecondaryRays(point)
      case Plane(p) => p.SecondaryRays(point)
    }

    /** SceneObject::surface_normal */
    function SurfaceNormal(m: Maths, point: Vec3): Vec3 {
      match this
      case LegacySphere(s) => s.SurfaceNormal(m, point)
      case Sphere(s) => s.SurfaceNormal(m, point)
      case Plane(p) => p.SurfaceNormal(point)
    }

    /** SceneObject::colour */
    function ColourAt(point: Vec3): Colour {
      match this
      case LegacySphere(s) => s.ColourAt(point)
      case Sphere(s) => s.ColourAt(point)
      case Plane(p) => p.ColourAt(point)
    }
  }

  /** Scene: the objects and the lights, in order. */
  datatype Scene = Scene(objects: seq<SceneObject>, lights: seq<Light>)

  /** RayIntersection: the object hit, by its index in the scene's objects,
      and the distance along the ray. */
  datatype RayIntersection = RayIntersection(objectIndex: nat, distance: real)

  /** The intersection trace's scan keeps after visiting `objects` in order:
      a hit replaces the one kept only when it is strictly nearer. */
  function NearestHit(m: Maths, objects: seq<SceneObject>, ray: Ray): (r: Option<RayIntersection>)
    ensures r.Some? ==> r.value.objectIndex < |objects|
    ensures r.Some? ==> objects[r.value.objectIndex].Intersect(m, ray) == Some(r.value.distance)
  {
    if |objects| == 0 then None
    else
      var last := |objects| - 1;
      var kept := NearestHit(m, objects[..last], ray);
      match objects[last].Intersect(m, ray)
      case None => kept
      case Some(distance) =>
        if kept.Some? && !(distance < kept.value.distance) then kept
        else Some(RayIntersection(last, distance))
  }

  /** The scan keeps nothing exactly when no object is hit; otherwise it
      keeps a hit no further than any other, and strictly nearer than the
      hit of every object before it, so the first of equally near objects
      wins. */
  lemma {:induction false} NearestHitIsNearest(m: Maths, objects: seq<SceneObject>, ray: Ray)
    ensures NearestHit(m, objects, ray).None? <==>
              forall i | 0 <= i < |objects| :: objects[i].Intersect(m, ray).None?
    ensures NearestHit(m, objects, ray).Some? ==>
              forall i | 0 <= i < |objects| && objects[i].Intersect(m, ray).Some? ::
                NearestHit(m, objects, ray).value.distance <= objects[i].Intersect(m, ray).value
    ensures NearestHit(m, objects, ray).Some? ==>
              forall i | 0 <= i < NearestHit(m, objects, ray).value.objectIndex && objects[i].Intersect(m, ray).Some? ::
                NearestHit(m, objects, ray).value.distance < objects[i].Intersect(m, ray).value
  {
    if |objects| > 0 {
      var last := |objects| - 1;
      var prefix := objects[..last];
      NearestHitIsNearest(m, prefix, ray);
      assert forall i | 0 <= i < last :: prefix[i] == objects[i];
      var kept := NearestHit(m, prefix, ray);
      match objects[last].Intersect(m, ray) {
        case None =>
          assert NearestHit(m, objects, ray) == kept;
        case Some(distance) =>
          if kept.Some? && !(distance < kept.value.distance) {
            assert NearestHit(m, objects, ray) == kept;
          } else {
            assert NearestHit(m, objects, ray) == Some(RayIntersection(last, distance));
          }
      }
    }
  }

  /** Whether `object` stands between `point` and `light`: the shadow ray
      from the point against the light's direction hits the object at a
      distance d with 0 <= d and d below the light's distance from the
      point hit. */
  predicate Occludes(m: Maths, light: Light, sceneObject: SceneObject, point: Vec3) {
    var shadowRay := Ray.New(m, point, light.Direction(point).Neg());
    match sceneObject.Intersect(m, shadowRay)
    case None => false
    case Some(distance) =>
      distance >= 0.0 && light.DistanceTo(m, shadowRay.At(distance)).Above(distance)
  }

  /** Whether some object occludes some light at the point. */
  predicate Shadowed(m: Maths, scene: Scene, point: Vec3) {
    exists l, o | 0 <= l < |scene.lights| && 0 <= o < |scene.objects| ::
      Occludes(m, scene.lights[l], scene.objects[o], point)
  }

  /** The colour trace gives a ray: the background when nothing is hit,
      black when the nearest hit is in shadow, else the colour of the object
      hit there. */
  function TraceColour(m: Maths, scene: Scene, ray: Ray): Colour {
    match NearestHit(m, scene.objects, ray)
    case None => BackgroundColour
    case Some(hit) =>
      var point := ray.At(hit.distance);
      if Shadowed(m, scene, point) then Black else scene.objects[hit.objectIndex].ColourAt(point)
  }

  /** is_shadow: for each light, cast the shadow ray and test every object
      against it, stopping at the first that occludes the light. */
  method IsShadow(m: Maths, point: Vec3, scene: Scene) returns (shadow: bool)
    ensures shadow == Shadowed(m, scene, point)
  {
    var l := 0;
    while l < |scene.lights|
      invariant 0 <= l <= |scene.lights|
      invariant forall a, o | 0 <= a < l && 0 <= o < |scene.objects| ::
                  !Occludes(m, scene.lights[a], scene.objects[o], point)
    {
      var light := scene.lights[l];
      var lightDir := light.Direction(point);
      var shadowRay := Ray.New(m, point, lightDir.Neg());
      var o := 0;
      while o < |scene.objects|
        invariant 0 <= o <= |scene.objects|
        invariant forall b | 0 <= b < o :: !Occludes(m, light, scene.objects[b], point)
      {
        var sceneObject := scene.objects[o];
        match sceneObject.Intersect(m, shadowRay) {
          case Some(distance) =>
            var shadowPoint := shadowRay.At(distance);
            if distance >= 0.0 && light.DistanceTo(m, shadowPoint).Above(distance) {
              assert Occludes(m, light, sceneObject, point);
              return true;
            }
          case None =>
        }
        o := o + 1;
      }
      l := l + 1;
    }
    return false;
  }

  /** trace: scan the objects for the nearest hit, then colour it. */
  method Trace(m: Maths, ray: Ray, scene: Scene) returns (colour: Colour)
    ensures colour == TraceColour(m, scene, ray)
  {
    var intersect: Option<RayIntersection> := None;
    var i := 0;
    while i < |scene.objects|
      invariant 0 <= i <= |scene.objects|
      invariant intersect == NearestHit(m, scene.objects[..i], ray)
    {
      var sceneObject := scene.objects[i];
      assert scene.objects[..i + 1][..i] == scene.objects[..i];
      match sceneObject.Intersect(m, ray) {
        case Some(distance) =>
          match intersect {
            case Some(RayIntersection(_, minDistance)) =>
              if distance < minDistance {
                intersect := Some(RayIntersection(i, distance));
              }
            case None =>
              intersect := Some(RayIntersection(i, distance));
          }
        case None =>
      }
      i := i + 1;
    }
    assert scene.objects[..i] == scene.objects;
    match intersect {
      case Some(RayIntersection(index, distance)) =>
        var intersectPoint := ray.At(distance);
        var shadow := IsShadow(m, intersectPoint, scene);
        if shadow {
          colour := Black;
        } else {
          colour := scene.objects[index].ColourAt(intersectPoint);
        }
      case None =>
        colour := BackgroundColour;
    }
  }

  /** The colour of pixel (x, y): the trace of the camera's primary ray
      through it. */
  function PixelColour(m: Maths, scene: Scene, camera: Camera, x: u32, y: u32): Colour {
    TraceColour(m, scene, camera.PrimaryRay(m, x, y))
  }

  /** The colour of every pixel, as one function of the pixel's indices. */
  function Pixels(m: Maths, scene: Scene, camera: Camera): (u32, u32) -> Colour {
    (x: u32, y: u32) => PixelColour(m, scene, camera, x, y)
  }

  /** Row y of a frame `width` pixels wide, its pixels from left to right. */
  function Row(pixel: (u32, u32) -> Colour, width: u32, y: u32): (row: seq<Colour>)
    ensures |row| == width as int
  {
    seq(width as int, x requires 0 <= x < width as int => pixel(x as u32, y))
  }

  /** The first `rows` rows of a frame, from the top down, one after the
      other. */
  function Rows(pixel: (u32, u32) -> Colour, width: u32, rows: nat): (frame: seq<Colour>)
    requires rows <= 0x1_0000_0000
    ensures |frame| == rows * width as int
  {
    if rows == 0 then []
    else Rows(pixel, width, rows - 1) + Row(pixel, width, (rows - 1) as u32)
  }

  /** The whole frame render produces. */
  function Frame(m: Maths, scene: Scene, camera: Camera): seq<Colour> {
    Rows(Pixels(m, scene, camera), camera.pxPerRow, camera.rowCount as int)
  }

  /** Multiplying by a non-negative factor keeps a weak order. */
  lemma MulMonotone(a: int, b: int, w: int)
    requires 0 <= a <= b && 0 <= w
    ensures a * w <= b * w
  {
    assert b * w - a * w == (b - a) * w;
  }

  /** Pixel (x, y) of the first `rows` rows sits at index y * width + x: the
      frame is laid out row by row. */
  lemma {:induction false} RowsLayout(pixel: (u32, u32) -> Colour, width: u32, rows: nat, x: nat, y: nat)
    requires rows <= 0x1_0000_0000
    requires x < width as int && y < rows
    ensures y * width as int + x < |Rows(pixel, width, rows)|
    ensures Rows(pixel, width, rows)[y * width as int + x] == pixel(x as u32, y as u32)
  {
    var w := width as int;
    var before, row := Rows(pixel, width, rows - 1), Row(pixel, width, (rows - 1) as u32);
    assert Rows(pixel, width, rows) == before + row;
    if y == rows - 1 {
      assert y * w + x == |before| + x;
      assert (before + row)[|before| + x] == row[x];
    } else {
      RowsLayout(pixel, width, rows - 1, x, y);
    }
  }

  /** render's frame holds row_count * px_per_row colours, and pixel (x, y)
      is at index y * px_per_row + x. */
  lemma FrameLayout(m: Maths, scene: Scene, camera: Camera, x: u32, y: u32)
    requires x < camera.pxPerRow && y < camera.rowCount
    ensures |Frame(m, scene, camera)| == camera.rowCount as int * camera.pxPerRow as int
    ensures Frame(m, scene, camera)[y as int * camera.pxPerRow as int + x as int] == PixelColour(m, scene, camera, x, y)
  {
    RowsLayout(Pixels(m, scene, camera), camera.pxPerRow, camera.rowCount as int, x as int, y as int);
  }

  /** render: traces the primary ray of every pixel, row by row, pushing
      each colour onto the frame. */
  method Render(m: Maths, scene: Scene, camera: Camera) returns (pixelColours: seq<Colour>)
    ensures pixelColours == Frame(m, scene, camera)
  {
    var pixel := Pixels(m, scene, camera);
    pixelColours := [];
    var y: u32 := 0;
    while y < camera.rowCount
      invariant y <= camera.rowCount
      invariant pixelColours == Rows(pixel, camera.pxPerRow, y as int)
    {
      var x: u32 := 0;
      while x < camera.pxPerRow
        invariant x <= camera.pxPerRow
        invariant pixelColours == Rows(pixel, camera.pxPerRow, y as int) + Row(pixel, camera.pxPerRow, y)[..x]
      {
        var ray := camera.PrimaryRay(m, x, y);
        var pixelColour := Trace(m, ray, scene);
        pixelColours := pixelColours + [pixelColour];
        assert Row(pixel, camera.pxPerRow, y)[..x + 1] == Row(pixel, camera.pxPerRow, y)[..x] + [pixelColour];
        x := x + 1;
      }
      assert Row(pixel, camera.pxPerRow, y)[..x] == Row(pixel, camera.pxPerRow, y);
      y := y + 1;
    }
  }

  /** Entry y * w + x of a frame of h rows of w colours: pixel (x, y). */
  function FrameAt(pixelColours: seq<Colour>, w: int, h: int, x: int, y: int): Colour
    requires 0 <= w && |pixelColours| == h * w && 0 <= x < w && 0 <= y < h
  {
    MulMonotone(y + 1, h, w);
    pixelColours[y * w + x]
  }

  /** The read-back in main: a new image of px_per_row by row_count pixels,
      filled row by row from the frame with a running index, so that image
      pixel (x, y) is frame entry y * px_per_row + x. */
  method ReadBack(camera: Camera, pixelColours: seq<Colour>) returns (img: array2<Colour>)
    requires |pixelColours| == camera.rowCount as int * camera.pxPerRow as int
    ensures fresh(img)
    ensures img.Length0 == camera.pxPerRow as int && img.Length1 == camera.rowCount as int
    ensures forall x, y | 0 <= x < img.Length0 && 0 <= y < img.Length1 ::
              img[x, y] == FrameAt(pixelColours, img.Length0, img.Length1, x, y)
  {
    var w, h := camera.pxPerRow as int, camera.rowCount as int;
    img := new Colour[w, h]((x, y) => Black);
    var idx := 0;
    var y := 0;
    while y < h
      invariant y <= h && idx == y * w
      invariant forall a, b | 0 <= a < w && 0 <= b < y :: img[a, b] == FrameAt(pixelColours, w, h, a, b)
    {
      idx := ReadBackRow(pixelColours, img, y, idx);
      assert idx == (y + 1) * w;
      y := y + 1;
    }
  }

  /** One row of main's read-back: pixels (0, y) to (w - 1, y) of the image
      take the next w frame entries, advancing the running index by w and
      leaving the other rows alone. */
  method ReadBackRow(pixelColours: seq<Colour>, img: array2<Colour>, y: int, idx: int) returns (next: int)
    requires 0 <= y < img.Length1 && |pixelColours| == img.Length1 * img.Length0
    requires idx == y * img.Length0
    modifies img
    ensures next == idx + img.Length0
    ensures forall a, b | 0 <= a < img.Length0 && 0 <= b < img.Length1 && b != y :: img[a, b] == old(img[a, b])
    ensures forall a | 0 <= a < img.Length0 :: img[a, y] == FrameAt(pixelColours, img.Length0, img.Length1, a, y)
  {
    var w, h := img.Length0, img.Length1;
    MulMonotone(y + 1, h, w);
    next := idx;
    var x := 0;
    while x < w
      invariant x <= w && next == idx + x
      invariant forall a, b | 0 <= a < w && 0 <= b < h && b != y :: img[a, b] == old(img[a, b])
      invariant forall a | 0 <= a < x :: img[a, y] == FrameAt(pixelColours, w, h, a, y)
    {
      img[x, y] := pixelColours[next];
      next := next + 1;
      x := x + 1;
    }
  }

  /** The scene main builds: one sphere of src/sphere.rs, of radius 1, two
      units in front of the camera, coloured 0xF4AE22, lit by one distant
      light shining along (-1, -5, -1) normalised. */
  function MainScene(m: Maths): Scene {
    var sphere := Spheres.Sphere(Vec3(0.0, 0.0, -2.0), 1.0, Colour.From24BitInt(0xF4AE22));
    Scene([LegacySphere(sphere)], [Distant(Vec3(-1.0, -5.0, -1.0).Normalised(m))])
  }

  /** main up to the image: render the scene through the fixed camera and
      read the frame back into a 200 by 200 image whose pixel (x, y) is the
      colour traced for camera pixel (x, y). */
  method MainImage(m: Maths) returns (img: array2<Colour>)
    ensures fresh(img) && img.Length0 == 200 && img.Length1 == 200
    ensures forall x, y | 0 <= x < 200 && 0 <= y < 200 ::
              img[x, y] == PixelColour(m, MainScene(m), Camera.Fixed(), x as u32, y as u32)
  {
    var camera := Camera.Fixed();
    var scene := MainScene(m);
    var pixelColours := Render(m, scene, camera);
    img := ReadBack(camera, pixelColours);
    forall x, y | 0 <= x < 200 && 0 <= y < 200
      ensures img[x, y] == PixelColour(m, scene, camera, x as u32, y as u32)
    {
      FrameLayout(m, scene, camera, x as u32, y as u32);
    }
  }

  /** The colour trace gives: the background exactly when no object is hit
      (no object's colour is ever consulted then); on a hit, black when the
      hit point is in shadow and otherwise the colour at that point of the
      nearest object, the first of the nearest if several tie. */
  lemma TraceColourCases(m: Maths, scene: Scene, ray: Ray)
    ensures (forall i | 0 <= i < |scene.objects| :: scene.objects[i].Intersect(m, ray).None?) ==>
              TraceColour(m, scene, ray) == BackgroundColour
    ensures (exists i | 0 <= i < |scene.objects| :: scene.objects[i].Intersect(m, ray).Some?) ==>
              var hit := NearestHit(m, scene.objects, ray);
              && hit.Some?
              && var point := ray.At(hit.value.distance);
                 TraceColour(m, scene, ray) == if Shadowed(m, scene, point) then Black else scene.objects[hit.value.objectIndex].ColourAt(point)
  {
    NearestHitIsNearest(m, scene.objects, ray);
  }

  /** With no lights nothing is in shadow. */
  lemma NoLightsNoShadow(m: Maths, scene: Scene, point: Vec3)
    requires |scene.lights| == 0
    ensures !Shadowed(m, scene, point)
  {
  }

  /** With a square root that is never negative, no scene object reports a
      hit behind the ray's source. */
  lemma HitsAhead(m: Maths, sceneObject: SceneObject, ray: Ray)
    requires m.SqrtNonNegative()
    ensures sceneObject.Intersect(m, ray).Some? ==> sceneObject.Intersect(m, ray).value >= 0.0
  {
    if sceneObject.Sphere? {
      Objects.IntersectNearestRoot(m, sceneObject.sphere, ray);
    }
  }

  /** A distant light is infinitely far away, so any object the shadow ray
      hits at all occludes it. */
  lemma DistantLightOccludedByAnyHit(m: Maths, dir: Vec3, sceneObject: SceneObject, point: Vec3)
    requires m.SqrtNonNegative()
    ensures Occludes(m, Distant(dir), sceneObject, point) <==>
              sceneObject.Intersect(m, Ray.New(m, point, dir.Neg())).Some?
  {
    HitsAhead(m, sceneObject, Ray.New(m, point, dir.Neg()));
  }

  /** A point light's distance from a point is the length of the direction
      its light falls on the point. */
  lemma PointLightDistance(m: Maths, loc: Vec3, point: Vec3)
    ensures Point(loc).DistanceTo(m, point) == Finite(Point(loc).Direction(point).Mag(m))
  {
    var u, v := loc.Sub(point), point.Sub(loc);
    assert u.x * u.x == v.x * v.x && u.y * u.y == v.y * v.y && u.z * u.z == v.z * v.z;
    assert u.Dot(u) == v.Dot(v);
  }

  /** With an exact square root, the shadow ray from a point other than a
      point light's location starts at the point and heads straight for the
      light. */
  lemma ShadowRayTowardsPointLight(m: Maths, loc: Vec3, point: Vec3)
    requires m.ExactSqrt() && point != loc
    ensures var shadowRay := Ray.New(m, point, Point(loc).Direction(point).Neg());
            && shadowRay.source == point
            && loc.Sub(point).Mag(m) > 0.0
            && shadowRay.dir.Mul(loc.Sub(point).Mag(m)) == loc.Sub(point)
  {
    assert Point(loc).Direction(point).Neg() == loc.Sub(point);
    assert loc.Sub(point) != Origin;
    MagPositive(m, loc.Sub(point));
  }

  /** The objects' colour does not depend on the point, none casts
      secondary rays, and the plane's normal does not depend on the point. */
  lemma ObjectSurfaceConstant(m: Maths, sceneObject: SceneObject, p: Vec3, q: Vec3)
    ensures sceneObject.ColourAt(p) == sceneObject.ColourAt(q)
    ensures sceneObject.SecondaryRays(p) == []
    ensures sceneObject.Plane? ==> sceneObject.SurfaceNormal(m, p) == sceneObject.SurfaceNormal(m, q)
  {
  }

  /** main's sphere is coloured red 0xF4, green 0xAE, blue 0x22 everywhere. */
  lemma MainSphereColour(m: Maths, point: Vec3)
    ensures MainScene(m).objects[0].ColourAt(point) == Colour(0xF4, 0xAE, 0x22)
  {
  }

  /** With the plane test as written, a floor whose normal is the y axis is
      never seen from above: whatever the lights, a ray heading straight
      down into a scene holding only that floor is given the background
      colour. */
  lemma {:induction false} FloorSceneShowsBackground(m: Maths, floor: Objects.XzPlane, lights: seq<Light>, source: Vec3)
    requires floor.normal == Vec3(0.0, 1.0, 0.0)
    ensures TraceColour(m, Scene([Plane(floor)], lights), Ray(source, Vec3(0.0, -1.0, 0.0))) == BackgroundColour
  {
    var ray := Ray(source, Vec3(0.0, -1.0, 0.0));
    Objects.DownwardRaysMissed(floor, ray);
    NearestHitIsNearest(m, [Plane(floor)], ray);
  }
}
