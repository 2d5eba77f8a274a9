// Model of src/vec3.rs: a three-component vector value type with f64
// components, here modelled as reals.
module Vectors {

  /** What the model cannot compute over the reals. `sqrt` stands for
      f64::sqrt; `nan` is the vector that normalising a vector of zero
      magnitude yields (IEEE-754 gives NaN components, which no real is). */
  datatype Maths = Maths(sqrt: real -> real, nan: Vec3) {

    /** f64::sqrt of a non-negative number is non-negative. */
    ghost predicate SqrtNonNegative() {
      forall x: real :: 0.0 <= x ==> 0.0 <= sqrt(x)
    }

    /** f64::sqrt idealised: the exact non-negative square root. */
    ghost predicate ExactSqrt() {
      forall x: real :: 0.0 <= x ==> 0.0 <= sqrt(x) && sqrt(x) * sqrt(x) == x
    }
  }

  /** Vec3 { x, y, z }; Vec3::new is the constructor. */
  datatype Vec3 = Vec3(x: real, y: real, z: real) {

    /** Vec3::dot: the sum of the componentwise products. */
    function Dot(other: Vec3): real {
      x * other.x + y * other.y + z * other.z
    }

    /** Vec3::mag: the square root of the vector dotted with itself. */
    function Mag(m: Maths): real {
      m.sqrt(Dot(this))
    }

    /** Vec3::normalised: every component divided by the magnitude. */
    function Normalised(m: Maths): Vec3 {
      var mag := Mag(m);
      if mag == 0.0 then m.nan else Vec3(x / mag, y / mag, z / mag)
    }

    /** impl Add for Vec3 */
    function Add(other: Vec3): Vec3 {
      Vec3(x + other.x, y + other.y, z + other.z)
    }

    /** impl Sub for Vec3 */
    function Sub(other: Vec3): Vec3 {
      Vec3(x - other.x, y - other.y, z - other.z)
    }

    /** impl Div<f64> for Vec3 */
    function Div(divisor: real): Vec3
      requires divisor != 0.0
    {
      Vec3(x / divisor, y / divisor, z / divisor)
    }

    /** impl Mul<f64> for Vec3 */
    function Mul(multiplier: real): Vec3 {
      Vec3(x * multiplier, y * multiplier, z * multiplier)
    }

    /** impl Neg for Vec3 */
    function Neg(): Vec3 {
      Vec3(-x, -y, -z)
    }
  }

  const Origin := Vec3(0.0, 0.0, 0.0)

  /** The dot product does not depend on the order of its operands. */
  lemma DotSymmetric(a: Vec3, b: Vec3)
    ensures a.Dot(b) == b.Dot(a)
  {
  }

  /** The product of a real with itself is non-negative, and positive unless
      the real is zero. (Stated for two equal operands rather than a square:
      the solver handles the two-operand form more reliably.) */
  lemma SelfProduct(a: real, b: real)
    requires a == b
    ensures a * b >= 0.0
    ensures a != 0.0 ==> a * b > 0.0
  {
    if a < 0.0 {
      assert (-a) * (-b) > 0.0;
    }
  }

  /** Squaring is strictly increasing on the non-negative reals. */
  lemma SquareLess(lo: real, hi: real)
    requires 0.0 <= lo < hi
    ensures lo * lo < hi * hi
  {
    var low, mid, high := lo * lo, lo * hi, hi * hi;
    assert low <= mid;
    assert mid < high;
  }

  /** Two non-negative reals with the same square are equal. */
  lemma SquareInjective(s: real, t: real)
    requires s >= 0.0 && t >= 0.0 && s * s == t * t
    ensures s == t
  {
    if s < t {
      SquareLess(s, t);
    } else if t < s {
      SquareLess(t, s);
    }
  }

  /** With an exact square root, f64::sqrt of a non-negative number is the
      non-negative number with that square; it is positive for a positive
      number. */
  lemma SqrtOf(m: Maths, x: real)
    requires m.ExactSqrt() && x >= 0.0
    ensures 0.0 <= m.sqrt(x) && m.sqrt(x) * m.sqrt(x) == x
    ensures x > 0.0 ==> m.sqrt(x) > 0.0
  {
    var r := m.sqrt(x);
    if r == 0.0 {
      assert r * r == 0.0 * 0.0;
    }
  }

  /** A vector dotted with an equal vector is non-negative, and positive
      when some component is non-zero. */
  lemma DotOfEqual(v: Vec3, w: Vec3)
    requires v == w
    ensures v.Dot(w) >= 0.0
    ensures v.x != 0.0 || v.y != 0.0 || v.z != 0.0 ==> v.Dot(w) > 0.0
  {
    SelfProduct(v.x, w.x);
    SelfProduct(v.y, w.y);
    SelfProduct(v.z, w.z);
    var a, b, c := v.x * w.x, v.y * w.y, v.z * w.z;
    assert v.Dot(w) == a + b + c;
    if v.x != 0.0 {
      assert a > 0.0;
    } else if v.y != 0.0 {
      assert b > 0.0;
    } else if v.z != 0.0 {
      assert c > 0.0;
    }
  }

  /** A vector dotted with itself is non-negative, and positive unless the
      vector is zero. */
  lemma DotSelf(v: Vec3)
    ensures v.Dot(v) >= 0.0
    ensures v != Origin ==> v.Dot(v) > 0.0
  {
    DotOfEqual(v, v);
    if v != Origin {
      NonZeroComponent(v);
    }
  }

  /** A vector other than the zero vector has a non-zero component. */
  lemma NonZeroComponent(v: Vec3)
    requires v != Origin
    ensures v.x != 0.0 || v.y != 0.0 || v.z != 0.0
  {
  }

  /** With an exact square root, the magnitude is non-negative, and
      positive unless the vector is zero. */
  lemma MagPositive(m: Maths, v: Vec3)
    requires m.ExactSqrt()
    ensures v.Mag(m) >= 0.0
    ensures v != Origin ==> v.Mag(m) > 0.0
  {
    var d := v.Dot(v);
    DotSelf(v);
    SqrtOf(m, d);
  }

  /** Normalising divides out the magnitude: scaling the normalised vector by
      the original magnitude gives the original vector back. */
  lemma NormalisedScalesBack(m: Maths, v: Vec3)
    requires m.ExactSqrt() && v != Origin
    ensures v.Mag(m) > 0.0
    ensures v.Normalised(m).Mul(v.Mag(m)) == v
  {
    MagPositive(m, v);
  }

  /** The only non-negative real whose square is one is one. */
  lemma UnitRoot(r: real)
    requires r >= 0.0 && r * r == 1.0
    ensures r == 1.0
  {
    if r < 1.0 {
      SquareLess(r, 1.0);
    } else if r > 1.0 {
      SquareLess(1.0, r);
    }
  }

  /** The unit test `normalised`: (1, 0, 0) is already normalised. */
  lemma NormalisedUnitX(m: Maths)
    requires m.ExactSqrt()
    ensures Vec3(1.0, 0.0, 0.0).Normalised(m) == Vec3(1.0, 0.0, 0.0)
  {
    SqrtOne(m);
    UnitXNormalised(m);
  }

  /** (1, 0, 0) is its own normalisation once the square root of one is one. */
  lemma UnitXNormalised(m: Maths)
    requires m.sqrt(1.0) == 1.0
    ensures Vec3(1.0, 0.0, 0.0).Normalised(m) == Vec3(1.0, 0.0, 0.0)
  {
    var v := Vec3(1.0, 0.0, 0.0);
    assert v.Dot(v) == 1.0;
  }

  /** With an exact square root, the square root of one is one. */
  lemma SqrtOne(m: Maths)
    requires m.ExactSqrt()
    ensures m.sqrt(1.0) == 1.0
  {
    SqrtOf(m, 1.0);
    UnitRoot(m.sqrt(1.0));
  }

  /** Subtracting what was added gives back the original vector. */
  lemma AddSubCancel(a: Vec3, b: Vec3)
    ensures a.Add(b).Sub(b) == a
  {
  }

  /** Negation flips every component, so negating twice is the identity. */
  lemma NegInvolutive(v: Vec3)
    ensures v.Neg().Neg() == v
    ensures v.Neg() == v.Mul(-1.0)
  {
  }

  /** The unit test `mul`: (1, 2, 3) * 2 is (2, 4, 6). */
  lemma MulExample()
    ensures Vec3(1.0, 2.0, 3.0).Mul(2.0) == Vec3(2.0, 4.0, 6.0)
  {
  }

  /** Dividing by a non-zero scalar undoes multiplying by it. */
  lemma DivUndoesMul(v: Vec3, s: real)
    requires s != 0.0
    ensures v.Mul(s).Div(s) == v
    ensures v.Div(s) == v.Mul(1.0 / s)
  {
  }
}
