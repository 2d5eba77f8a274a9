// Model of src/sphere.rs: the earlier sphere, whose intersection test uses
// radius² - d² where the geometry calls for its square root.
module Spheres {
  import opened Optional
  import opened Vectors
  import opened Rays
  import opened Colours

  /** Sphere { centre, radius, colour } of src/sphere.rs. */
  datatype Sphere = Sphere(centre: Vec3, radius: real, colour: Colour) {

    /** tca: the distance along the ray to the point nearest the centre. */
    function Tca(ray: Ray): real {
      centre.Sub(ray.source).Dot(ray.dir)
    }

    /** d2: the squared distance from the centre to the ray's line. */
    function D2(ray: Ray): real {
      var l := centre.Sub(ray.source);
      l.Dot(l) - Tca(ray) * Tca(ray)
    }

    /** thc as this version computes it: radius² - d2, not square-rooted. */
    function Thc(ray: Ray): real {
      radius * radius - D2(ray)
    }

    function T0(ray: Ray): real {
      Tca(ray) - Thc(ray)
    }

    /** t1 as this version computes it: t0 + 2 * thc. */
    function T1(ray: Ray): real {
      T0(ray) + Thc(ray) * 2.0
    }

    /** SceneObject::intersect for this sphere. A ray whose closest approach
        to the centre lies behind the source, or passes further from the
        centre than the radius, misses; otherwise the answer is t0 when it is
        not negative and t1 when it is, and never a negative distance. */
    function Intersect(ray: Ray): (r: Option<real>)
      ensures r.None? <==> Tca(ray) < 0.0 || D2(ray) > radius * radius
      ensures r.Some? ==> r.value >= 0.0
      ensures r.Some? ==> r.value == if T0(ray) >= 0.0 then T0(ray) else T1(ray)
    {
      if Tca(ray) < 0.0 then None
      else if D2(ray) > radius * radius then None
      else
        var t0, t1 := T0(ray), T1(ray);
        if t0 < 0.0 && t1 < 0.0 then None
        else if t0 < 0.0 && t1 > 0.0 then Some(t1)
        else if t0 > 0.0 && t1 < 0.0 then Some(t0)
        else Some(if t0 <= t1 then t0 else t1)
    }

    /** SceneObject::surface_normal: the direction from the centre to the
        point, normalised. */
    function SurfaceNormal(m: Maths, point: Vec3): (n: Vec3)
      ensures point.Sub(centre).Mag(m) != 0.0 ==> n.Mul(point.Sub(centre).Mag(m)) == point.Sub(centre)
    {
      point.Sub(centre).Normalised(m)
    }

    /** SceneObject::colour: the sphere's own colour at every point. */
    function ColourAt(point: Vec3): Colour {
      colour
    }

    /** SceneObject::secondary_rays: none. */
    function SecondaryRays(point: Vec3): seq<Ray> {
      []
    }
  }

  /** Once the two rejections pass, thc is not negative, t1 is tca + thc,
      the roots are ordered and t1 is not negative, so the cascade's "both
      negative" and "t0 positive, t1 negative" branches cannot be taken. */
  lemma RootsOrdered(s: Sphere, ray: Ray)
    requires s.Tca(ray) >= 0.0 && s.D2(ray) <= s.radius * s.radius
    ensures s.Thc(ray) >= 0.0
    ensures s.T1(ray) == s.Tca(ray) + s.Thc(ray)
    ensures s.T0(ray) <= s.T1(ray) && s.T1(ray) >= 0.0
    ensures !(s.T0(ray) < 0.0 && s.T1(ray) < 0.0)
    ensures !(s.T0(ray) > 0.0 && s.T1(ray) < 0.0)
  {
  }

  /** A sphere of radius 2 centred three units down the negative z axis,
      and a ray from the origin aimed at its centre. */
  const ExampleSphere := Sphere(Vec3(0.0, 0.0, -3.0), 2.0, Colour(0, 0, 0))
  const ExampleRay := Ray(Origin, Vec3(0.0, 0.0, -1.0))

  /** The quantities this version computes for the example: tca 3, d2 0,
      thc 4, so t0 is -1 and t1 is 7. */
  lemma ExampleRoots()
    ensures ExampleSphere.radius * ExampleSphere.radius == 4.0
    ensures ExampleSphere.Tca(ExampleRay) == 3.0 && ExampleSphere.D2(ExampleRay) == 0.0
    ensures ExampleSphere.T0(ExampleRay) == -1.0 && ExampleSphere.T1(ExampleRay) == 7.0
  {
    assert ExampleSphere.centre.Sub(ExampleRay.source) == Vec3(0.0, 0.0, -3.0);
  }

  /** The hit this version reports for the example: 7 units along the ray,
      at a point 4 units from the centre, so not on the sphere of radius 2
      (the sphere's surface is 1 unit along the ray). */
  lemma HitOffSurface()
    ensures ExampleSphere.Intersect(ExampleRay) == Some(7.0)
    ensures SquaredDistanceFromCentre(ExampleSphere, ExampleRay.At(7.0)) == 16.0
    ensures SquaredDistanceFromCentre(ExampleSphere, ExampleRay.At(7.0)) != ExampleSphere.radius * ExampleSphere.radius
  {
    ExampleHit();
    ExampleHitPoint();
  }

  /** This version answers 7 for the example: t0 is negative and t1
      positive, so the cascade picks t1. */
  lemma ExampleHit()
    ensures ExampleSphere.radius * ExampleSphere.radius == 4.0
    ensures ExampleSphere.Intersect(ExampleRay) == Some(7.0)
  {
    ExampleRoots();
    var t0, t1 := ExampleSphere.T0(ExampleRay), ExampleSphere.T1(ExampleRay);
    assert t0 < 0.0 && t1 > 0.0;
  }

  /** The point 7 units along the example ray is 4 units beyond the centre. */
  lemma ExampleHitPoint()
    ensures SquaredDistanceFromCentre(ExampleSphere, ExampleRay.At(7.0)) == 16.0
  {
    assert ExampleRay.At(7.0).Sub(ExampleSphere.centre) == Vec3(0.0, 0.0, -4.0);
  }

  /** The squared distance of a point from a sphere's centre; a point is on
      the sphere when it equals the squared radius. */
  function SquaredDistanceFromCentre(s: Sphere, p: Vec3): real {
    p.Sub(s.centre).Dot(p.Sub(s.centre))
  }
}
