// The Ray type of src/main.rs: a source point and a direction that Ray::new
// normalises.
module Rays {
  import opened Vectors

  datatype Ray = Ray(source: Vec3, dir: Vec3) {

    /** Ray::new: keeps the source and normalises the direction. */
    static function New(m: Maths, source: Vec3, dir: Vec3): (r: Ray)
      ensures r.source == source
      ensures dir.Mag(m) != 0.0 ==> r.dir.Mul(dir.Mag(m)) == dir
    {
      Ray(source, dir.Normalised(m))
    }

    /** The point `source + dir * distance`, the way trace and is_shadow
        turn a distance along a ray into a point. */
    function At(distance: real): Vec3 {
      source.Add(dir.Mul(distance))
    }
  }

  /** Scaling a vector by k scales its dot product with itself by the
      square kk of k. */
  lemma ScaledDot(n: Vec3, k: real, kk: real)
    requires kk == k * k
    ensures n.Mul(k).Dot(n.Mul(k)) == n.Dot(n) * kk
  {
    var a, b, c := n.x * n.x, n.y * n.y, n.z * n.z;
    assert (n.x * k) * (n.x * k) == a * kk;
    assert (n.y * k) * (n.y * k) == b * kk;
    assert (n.z * k) * (n.z * k) == c * kk;
  }

  /** A non-zero vector v that is n scaled by k, where k * k is v dotted
      with itself, makes n a vector of unit length. */
  lemma UnitAfterScaling(v: Vec3, n: Vec3, k: real)
    requires v != Origin && n.Mul(k) == v && k * k == v.Dot(v)
    ensures n.Dot(n) == 1.0
  {
    DotSelf(v);
    ScaledDot(n, k, v.Dot(v));
    CancelFactor(n.Dot(n), v.Dot(v));
  }

  /** A real that leaves a positive factor unchanged when multiplied by it
      is one. */
  lemma CancelFactor(s: real, f: real)
    requires f > 0.0 && s * f == f
    ensures s == 1.0
  {
  }

  /** With an exact square root, Ray::new gives a direction of unit length
      pointing the same way as the given one, for any non-zero direction. */
  lemma NewDirectionIsUnit(m: Maths, source: Vec3, dir: Vec3)
    requires m.ExactSqrt() && dir != Origin
    ensures dir.Mag(m) > 0.0
    ensures Ray.New(m, source, dir).dir.Mul(dir.Mag(m)) == dir
    ensures Ray.New(m, source, dir).dir.Dot(Ray.New(m, source, dir).dir) == 1.0
  {
    NormalisedScalesBack(m, dir);
    var k := dir.Mag(m);
    SqrtOf(m, dir.Dot(dir));
    UnitAfterScaling(dir, Ray.New(m, source, dir).dir, k);
  }
}
