// Model of src/objects.rs: the later sphere, whose intersection test takes
// the square root, and the plane with edges parallel to the x and z axes.
module Objects {
  import opened Optional
  import opened Vectors
  import opened Rays
  import opened Colours

  /** Sphere { centre, radius, colour } of src/objects.rs. */
  datatype Sphere = Sphere(centre: Vec3, radius: real, colour: Colour) {

    /** tca: the distance along the ray to the point nearest the centre. */
    function Tca(ray: Ray): real {
      centre.Sub(ray.source).Dot(ray.dir)
    }

    /** d2: the squared distance from the centre to the ray's line. */
    function D2(ray: Ray): real {
      var l := centre.Sub(ray.source);
      l.Dot(l) - Tca(ray) * Tca(ray)
    }

    /** thc: half the length of the chord the ray cuts through the sphere. */
    function Thc(m: Maths, ray: Ray): real {
      m.sqrt(radius * radius - D2(ray))
    }

    /** t0 and t1: the distances along the ray where it enters and leaves. */
    function T0(m: Maths, ray: Ray): real {
      Tca(ray) - Thc(m, ray)
    }

    function T1(m: Maths, ray: Ray): real {
      Tca(ray) + Thc(m, ray)
    }

    /** SceneObject::intersect for this sphere: no hit when the closest
        approach to the centre lies behind the source or further from the
        centre than the radius; otherwise one of the two roots. */
    function Intersect(m: Maths, ray: Ray): (r: Option<real>)
      ensures Tca(ray) < 0.0 ==> r.None?
      ensures D2(ray) > radius * radius ==> r.None?
      ensures r.Some? ==> r.value == T0(m, ray) || r.value == T1(m, ray)
    {
      if Tca(ray) < 0.0 then None
      else if D2(ray) > radius * radius then None
      else
        var t0, t1 := T0(m, ray), T1(m, ray);
        if t0 < 0.0 && t1 < 0.0 then None
        else if t0 < 0.0 && t1 > 0.0 then Some(t1)
        else if t0 > 0.0 && t1 < 0.0 then Some(t0)
        else Some(if t0 <= t1 then t0 else t1)
    }

    /** SceneObject::surface_normal: the direction from the centre to the
        point, normalised. */
    function SurfaceNormal(m: Maths, point: Vec3): (n: Vec3)
      ensures point.Sub(centre).Mag(m) != 0.0 ==> n.Mul(point.Sub(centre).Mag(m)) == point.Sub(centre)
    {
      point.Sub(centre).Normalised(m)
    }

    /** SceneObject::colour: the sphere's own colour at every point. */
    function ColourAt(point: Vec3): Colour {
      colour
    }

    /** SceneObject::secondary_rays: none. */
    function SecondaryRays(point: Vec3): seq<Ray> {
      []
    }
  }

  /** With a square root that is never negative, the sphere misses exactly
      when one of the two rejections applies; otherwise the roots are
      ordered, the answer is t0 when it is not negative and t1 when it is, so
      it is never negative and is the nearer root when both are ahead. */
  lemma IntersectNearestRoot(m: Maths, s: Sphere, ray: Ray)
    requires m.SqrtNonNegative()
    ensures s.Intersect(m, ray).None? <==> s.Tca(ray) < 0.0 || s.D2(ray) > s.radius * s.radius
    ensures s.Intersect(m, ray).Some? ==>
              s.T0(m, ray) <= s.T1(m, ray)
              && s.Intersect(m, ray).value >= 0.0
              && s.Intersect(m, ray).value == if s.T0(m, ray) >= 0.0 then s.T0(m, ray) else s.T1(m, ray)
  {
    if s.Tca(ray) >= 0.0 && s.D2(ray) <= s.radius * s.radius {
      assert s.Thc(m, ray) >= 0.0;
    }
  }

  /** The point `distance` along a ray, less the centre, is the direction
      scaled by the distance less the vector l from source to centre. */
  lemma HitOffset(s: Sphere, ray: Ray, t: real)
    ensures ray.At(t).Sub(s.centre) == ray.dir.Mul(t).Sub(s.centre.Sub(ray.source))
  {
  }

  /** Expanding the squared length of d * t - l. */
  lemma ExpandSquare(d: Vec3, l: Vec3, t: real)
    ensures d.Mul(t).Sub(l).Dot(d.Mul(t).Sub(l)) == t * t * d.Dot(d) - 2.0 * t * l.Dot(d) + l.Dot(l)
  {
    ExpandSquareComponent(d.x, l.x, t);
    ExpandSquareComponent(d.y, l.y, t);
    ExpandSquareComponent(d.z, l.z, t);
    Distribute(t * t, d.x * d.x, d.y * d.y, d.z * d.z);
    Distribute(2.0 * t, l.x * d.x, l.y * d.y, l.z * d.z);
  }

  /** Multiplication distributes over a sum of three. */
  lemma Distribute(c: real, a: real, b: real, e: real)
    ensures c * (a + b + e) == c * a + c * b + c * e
  {
  }

  /** Expanding (a * t - b)². */
  lemma ExpandSquareComponent(a: real, b: real, t: real)
    ensures (a * t - b) * (a * t - b) == t * t * (a * a) - 2.0 * t * (b * a) + b * b
  {
  }

  /** For either root t = tca -/+ thc with thc² = radius² - (ll - tca²), the
      quadratic t² - 2 t tca + ll equals radius². */
  lemma RootOnSurface(t: real, tca: real, thc: real, ll: real, rr: real)
    requires thc * thc == rr - (ll - tca * tca)
    requires t == tca - thc || t == tca + thc
    ensures t * t - 2.0 * t * tca + ll == rr
  {
    assert t * t - 2.0 * t * tca == (t - tca) * (t - tca) - tca * tca;
    assert (t - tca) * (t - tca) == thc * thc;
  }

  /** With an exact square root and a ray of unit direction, a hit lies on
      the sphere: its squared distance from the centre is radius². */
  lemma IntersectOnSurface(m: Maths, s: Sphere, ray: Ray)
    requires m.ExactSqrt() && ray.dir.Dot(ray.dir) == 1.0
    requires s.Intersect(m, ray).Some?
    ensures var p := ray.At(s.Intersect(m, ray).value);
            p.Sub(s.centre).Dot(p.Sub(s.centre)) == s.radius * s.radius
  {
    var t := s.Intersect(m, ray).value;
    var l := s.centre.Sub(ray.source);
    var x := s.radius * s.radius - s.D2(ray);
    SqrtOf(m, x);
    HitOffset(s, ray, t);
    ExpandSquare(ray.dir, l, t);
    RootOnSurface(t, s.Tca(ray), s.Thc(m, ray), l.Dot(l), s.radius * s.radius);
  }

  /** The sphere of radius 2 three units down the negative z axis, probed by
      the ray from the origin towards its centre, is hit one unit along the
      ray, where the ray enters it (with an exact square root). */
  lemma ExampleHit(m: Maths)
    requires m.ExactSqrt()
    ensures Sphere(Vec3(0.0, 0.0, -3.0), 2.0, Colour(0, 0, 0)).Intersect(m, Ray(Origin, Vec3(0.0, 0.0, -1.0))) == Some(1.0)
  {
    SqrtOf(m, 4.0);
    SquareInjective(m.sqrt(4.0), 2.0);
    ExampleRoots(m, Sphere(Vec3(0.0, 0.0, -3.0), 2.0, Colour(0, 0, 0)), Ray(Origin, Vec3(0.0, 0.0, -1.0)));
  }

  /** The example's roots once the square root of 4 is known to be 2. */
  lemma ExampleRoots(m: Maths, s: Sphere, ray: Ray)
    requires m.sqrt(4.0) == 2.0
    requires s == Sphere(Vec3(0.0, 0.0, -3.0), 2.0, Colour(0, 0, 0)) && ray == Ray(Origin, Vec3(0.0, 0.0, -1.0))
    ensures s.Tca(ray) == 3.0 && s.D2(ray) == 0.0
    ensures s.T0(m, ray) == 1.0 && s.T1(m, ray) == 5.0
    ensures s.Intersect(m, ray) == Some(1.0)
  {
    assert s.centre.Sub(ray.source) == Vec3(0.0, 0.0, -3.0);
    assert s.radius * s.radius - s.D2(ray) == 4.0;
  }

  /** The threshold below which XzPlane::intersect treats the ray as running
      parallel to the plane. */
  const ParallelThreshold: real := 0.000001

  /** XzPlane: a plane at height y with edges parallel to the x and z axes,
      a point p0 on it and its normal. */
  datatype XzPlane = XzPlane(
    y: real,
    xMin: real,
    xMax: real,
    zMin: real,
    zMax: real,
    colour: Colour,
    p0: Vec3,
    normal: Vec3)
  {
    /** XzPlane::new: p0 is the corner (x_min, y, z_min) and the normal is the
        unit y axis, normalised. */
    static function New(m: Maths, y: real, xMin: real, xMax: real, zMin: real, zMax: real, colour: Colour): (p: XzPlane)
      ensures p.y == y && p.xMin == xMin && p.xMax == xMax && p.zMin == zMin && p.zMax == zMax
      ensures p.colour == colour
      ensures p.p0 == Vec3(xMin, y, zMin) && p.p0.y == p.y
      ensures m.sqrt(1.0) != 0.0 ==> p.normal == Vec3(0.0, 1.0 / m.sqrt(1.0), 0.0)
    {
      var p0 := Vec3(xMin, y, zMin);
      var normal := Vec3(0.0, 1.0, 0.0).Normalised(m);
      XzPlane(y, xMin, xMax, zMin, zMax, colour, p0, normal)
    }

    /** XzPlane::in_bounds: the containment test is disabled and every point
        counts as inside. */
    function InBounds(pt: Vec3): bool {
      true
    }

    /** How far the plane lies from the ray's source along the normal. */
    function Numerator(ray: Ray): real {
      p0.Sub(ray.source).Dot(normal)
    }

    /** How fast the ray approaches the plane along the normal. */
    function Denominator(ray: Ray): real {
      ray.dir.Dot(normal)
    }

    /** SceneObject::intersect for the plane, as written: no hit when the
        ray's direction dotted with the normal is below the threshold (which
        takes in every ray heading against the normal, not only the nearly
        parallel ones) or when the plane lies behind the source; otherwise the
        distance t at which the ray meets the plane, t * denominator being
        the numerator. */
    function Intersect(ray: Ray): (r: Option<real>)
      ensures r.None? <==> Denominator(ray) < ParallelThreshold || Numerator(ray) < 0.0
      ensures r.Some? ==> r.value >= 0.0 && r.value * Denominator(ray) == Numerator(ray)
    {
      var denominator := Denominator(ray);
      if denominator < ParallelThreshold then None
      else
        var t := Numerator(ray) / denominator;
        if t < 0.0 then None
        else if InBounds(ray.At(t)) then Some(t)
        else None
    }

    /** SceneObject::intersect as evidently intended: only a ray nearly
        parallel to the plane, whichever side it comes from, is rejected, and
        otherwise the ray hits when the plane lies ahead of it. */
    function IntersectTwoSided(ray: Ray): (r: Option<real>)
      ensures r.None? <==>
                (-ParallelThreshold < Denominator(ray) < ParallelThreshold
                 || Numerator(ray) * Denominator(ray) < 0.0)
      ensures r.Some? ==> r.value >= 0.0 && r.value * Denominator(ray) == Numerator(ray)
    {
      var denominator := Denominator(ray);
      if -ParallelThreshold < denominator < ParallelThreshold then None
      else
        var t := Numerator(ray) / denominator;
        if t < 0.0 then None
        else if InBounds(ray.At(t)) then Some(t)
        else None
    }

    /** SceneObject::surface_normal: the same normal at every point. */
    function SurfaceNormal(point: Vec3): Vec3 {
      normal
    }

    /** SceneObject::colour: the plane's own colour at every point. */
    function ColourAt(point: Vec3): Colour {
      colour
    }

    /** SceneObject::secondary_rays: none. */
    function SecondaryRays(point: Vec3): seq<Ray> {
      []
    }
  }

  /** With an exact square root, XzPlane::new's normal is the unit y axis. */
  lemma NewNormalIsUnitY(m: Maths, y: real, xMin: real, xMax: real, zMin: real, zMax: real, colour: Colour)
    requires m.ExactSqrt()
    ensures XzPlane.New(m, y, xMin, xMax, zMin, zMax, colour).normal == Vec3(0.0, 1.0, 0.0)
  {
    SqrtOne(m);
  }

  /** A distance t with t * denominator equal to the numerator takes the ray
      to a point of the plane: the point less p0 is orthogonal to the
      normal. */
  lemma HitOnPlane(plane: XzPlane, ray: Ray, t: real)
    requires t * plane.Denominator(ray) == plane.Numerator(ray)
    ensures ray.At(t).Sub(plane.p0).Dot(plane.normal) == 0.0
  {
    var n, d, s := plane.normal, ray.dir, ray.source;
    assert ray.At(t).Sub(plane.p0).Dot(n) == s.Sub(plane.p0).Dot(n) + t * d.Dot(n) by {
      assert (s.x + d.x * t - plane.p0.x) * n.x == (s.x - plane.p0.x) * n.x + t * (d.x * n.x);
      assert (s.y + d.y * t - plane.p0.y) * n.y == (s.y - plane.p0.y) * n.y + t * (d.y * n.y);
      assert (s.z + d.z * t - plane.p0.z) * n.z == (s.z - plane.p0.z) * n.z + t * (d.z * n.z);
    }
    assert s.Sub(plane.p0).Dot(n) == -plane.Numerator(ray);
  }

  /** Both intersection tests report only points of the plane. */
  lemma IntersectOnPlane(plane: XzPlane, ray: Ray)
    ensures plane.Intersect(ray).Some? ==>
              ray.At(plane.Intersect(ray).value).Sub(plane.p0).Dot(plane.normal) == 0.0
    ensures plane.IntersectTwoSided(ray).Some? ==>
              ray.At(plane.IntersectTwoSided(ray).value).Sub(plane.p0).Dot(plane.normal) == 0.0
  {
    if plane.Intersect(ray).Some? {
      HitOnPlane(plane, ray, plane.Intersect(ray).value);
    }
    if plane.IntersectTwoSided(ray).Some? {
      HitOnPlane(plane, ray, plane.IntersectTwoSided(ray).value);
    }
  }

  /** For a ray approaching along the normal, the intended test and the
      written one agree; they differ only for rays heading against the
      normal. */
  lemma TwoSidedAgrees(plane: XzPlane, ray: Ray)
    requires plane.Denominator(ray) >= ParallelThreshold
    ensures plane.IntersectTwoSided(ray) == plane.Intersect(ray)
  {
  }

  /** As written, a plane whose normal is the unit y axis never reports a hit
      for a ray heading downwards, wherever the plane lies. */
  lemma DownwardRaysMissed(plane: XzPlane, ray: Ray)
    requires plane.normal == Vec3(0.0, 1.0, 0.0) && ray.dir.y < 0.0
    ensures plane.Intersect(ray).None?
  {
    assert plane.Denominator(ray) == ray.dir.y;
  }

  /** A floor at height -1, as one of the program's scenes builds it, seen
      from the origin straight down: the ray reaches the floor's height one
      unit along, the written test reports no hit and the intended one
      reports a hit at distance 1. That point lies outside the plane's z
      range, so the bounds are not applied either. */
  lemma FloorSeenFromAbove(m: Maths)
    requires m.ExactSqrt()
    ensures var floor := XzPlane.New(m, -1.0, -1.0, 1.0, -4.0, -2.0, Colour(0xFF, 0xFF, 0xFF));
            var ray := Ray(Origin, Vec3(0.0, -1.0, 0.0));
            && ray.At(1.0).y == floor.y
            && floor.Intersect(ray).None?
            && floor.IntersectTwoSided(ray) == Some(1.0)
            && !(floor.zMin <= ray.At(1.0).z <= floor.zMax)
  {
    NewNormalIsUnitY(m, -1.0, -1.0, 1.0, -4.0, -2.0, Colour(0xFF, 0xFF, 0xFF));
    FloorFromAbove(XzPlane.New(m, -1.0, -1.0, 1.0, -4.0, -2.0, Colour(0xFF, 0xFF, 0xFF)));
  }

  /** FloorSeenFromAbove for any floor at height -1 with the unit y normal
      and p0 on it. */
  lemma FloorFromAbove(floor: XzPlane)
    requires floor.normal == Vec3(0.0, 1.0, 0.0) && floor.y == -1.0 && floor.p0.y == -1.0
    requires floor.zMin == -4.0 && floor.zMax == -2.0
    ensures var ray := Ray(Origin, Vec3(0.0, -1.0, 0.0));
            && ray.At(1.0).y == floor.y
            && floor.Intersect(ray).None?
            && floor.IntersectTwoSided(ray) == Some(1.0)
            && !(floor.zMin <= ray.At(1.0).z <= floor.zMax)
  {
    var ray := Ray(Origin, Vec3(0.0, -1.0, 0.0));
    assert floor.Denominator(ray) == -1.0;
    assert floor.Numerator(ray) == -1.0;
  }
}
