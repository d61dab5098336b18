/**
 * Three-component vectors over the reals, standing for glm::vec3 / glm::vec2 and
 * for the helpers `dot`, `cross` and `normalize` that cloth.cpp and clothBackup.cpp
 * both define (the two copies are identical).
 *
 * The C library's `sqrt` cannot be given a body over the reals, so every member that
 * needs it takes it as a parameter; the lemmas assume only `IsSqrt`, i.e. that it
 * returns the non-negative root of a non-negative argument.
 */
module VecMath {

  datatype Vec3 = Vec3(x: real, y: real, z: real)

  datatype Vec2 = Vec2(u: real, v: real)

  const Zero: Vec3 := Vec3(0.0, 0.0, 0.0)

  function Add(a: Vec3, b: Vec3): Vec3 {
    Vec3(a.x + b.x, a.y + b.y, a.z + b.z)
  }

  function Sub(a: Vec3, b: Vec3): Vec3 {
    Vec3(a.x - b.x, a.y - b.y, a.z - b.z)
  }

  function Scale(c: real, a: Vec3): Vec3 {
    Vec3(c * a.x, c * a.y, c * a.z)
  }

  /** `sqrt` is a square root on the non-negative reals. */
  ghost predicate IsSqrt(sqrt: real -> real) {
    forall x :: x >= 0.0 ==> sqrt(x) >= 0.0 && sqrt(x) * sqrt(x) == x
  }

  /** dot(v1, v2) */
  function Dot(a: Vec3, b: Vec3): real {
    (a.x * b.x) + (a.y * b.y) + (a.z * b.z)
  }

  /** cross(a, b): the result is orthogonal to both arguments. */
  function Cross(a: Vec3, b: Vec3): (c: Vec3)
    ensures Dot(c, a) == 0.0 && Dot(c, b) == 0.0
  {
    var x := a.y * b.z - a.z * b.y;
    var y := a.z * b.x - a.x * b.z;
    var z := a.x * b.y - a.y * b.x;
    assert x * a.x + y * a.y + z * a.z == 0.0;
    assert x * b.x + y * b.y + z * b.z == 0.0;
    Vec3(x, y, z)
  }

  /** The Euclidean length sqrt(dot(v, v)). */
  function Length(v: Vec3, sqrt: real -> real): real {
    sqrt(Dot(v, v))
  }

  /** `v * (1 / magnitude)`. Where the source divides by a zero magnitude (a NaN
      in floating point) the model yields the zero vector. */
  function Normalize(v: Vec3, sqrt: real -> real): (r: Vec3)
    ensures v == Zero ==> r == Zero
  {
    var magnitude := Length(v, sqrt);
    if magnitude == 0.0 then Zero else Scale(1.0 / magnitude, v)
  }

  /** normalize(v) is a unit vector pointing the same way as v. */
  lemma NormalizeIsUnit(v: Vec3, sqrt: real -> real)
    requires IsSqrt(sqrt) && v != Zero
    ensures Dot(Normalize(v, sqrt), Normalize(v, sqrt)) == 1.0
    ensures Dot(Normalize(v, sqrt), v) > 0.0
  {
    var d := Dot(v, v);
    DotSelfPositive(v);
    var m := sqrt(d);
    assert m >= 0.0 && m * m == d;
    SqrtPositive(sqrt, d);
    var c := 1.0 / m;
    assert c > 0.0;
    DotScale(c, v);
    UnitAfterDivision(d, m);
  }

  /** The shading normal `cross(b, a)` is anti-symmetric in its arguments. */
  lemma CrossAntiSymmetric(a: Vec3, b: Vec3)
    ensures Cross(a, b) == Scale(-1.0, Cross(b, a))
  {
  }

  /** A vector crossed with a multiple of itself gives the zero vector. */
  lemma CrossScaledSelf(c: real, e: Vec3)
    ensures Cross(Scale(c, e), e) == Zero
  {
    assert Product(c * e.y, e.z) == Product(c * e.z, e.y);
    assert Product(c * e.z, e.x) == Product(c * e.x, e.z);
    assert Product(c * e.x, e.y) == Product(c * e.y, e.x);
  }

  lemma CrossScaledTwice(c: real, d: real, e: Vec3)
    ensures Cross(Scale(c, Scale(d, e)), e) == Zero
  {
    ScaleScale(c, d, e);
    CrossScaledSelf(c * d, e);
  }

  /** A length is never negative. */
  lemma LengthNonNegative(v: Vec3, sqrt: real -> real)
    requires IsSqrt(sqrt)
    ensures Length(v, sqrt) >= 0.0
  {
    DotSelfPositive(v);
  }

  /** dot is linear in each argument. */
  lemma DotSubLeft(a: Vec3, b: Vec3, n: Vec3)
    ensures Dot(Sub(a, b), n) == Dot(a, n) - Dot(b, n)
  {
  }

  lemma DotScaleLeft(k: real, a: Vec3, n: Vec3)
    ensures Dot(Scale(k, a), n) == k * Dot(a, n)
  {
  }

  lemma DotScaleRight(x: Vec3, c: real, v: Vec3)
    ensures Dot(x, Scale(c, v)) == c * Dot(x, v)
  {
  }

  /** Scaling twice is scaling by the product. */
  lemma ScaleScale(a: real, b: real, v: Vec3)
    ensures Scale(a, Scale(b, v)) == Scale(a * b, v)
  {
  }

  /** Scaling by 1/d and then by d gives the vector back. */
  lemma ScaleInverse(d: real, v: Vec3)
    requires d != 0.0
    ensures Scale(d, Scale(1.0 / d, v)) == v
  {
    ScaleScale(d, 1.0 / d, v);
    assert d * (1.0 / d) == 1.0;
  }

  /** dot(v, v) is the sum of the squared components: never negative, and positive
      off the zero vector. */
  lemma DotSelfPositive(v: Vec3)
    ensures Dot(v, v) == Square(v.x) + Square(v.y) + Square(v.z)
    ensures Dot(v, v) >= 0.0
    ensures v != Zero ==> Dot(v, v) > 0.0
  {
    SquareSign(v.x);
    SquareSign(v.y);
    SquareSign(v.z);
    if v.x == 0.0 && v.y == 0.0 && v.z == 0.0 {
      assert v == Zero;
    }
  }

  // Products are kept behind functions in the sign lemmas so that the solver sees
  // the same product term on both sides of each step.
  function Square(a: real): real { a * a }

  function Product(a: real, b: real): real { a * b }

  lemma ProductPositive(a: real, b: real)
    requires a > 0.0 && b > 0.0
    ensures Product(a, b) > 0.0
  {
  }

  lemma SquareSign(a: real)
    ensures Square(a) >= 0.0
    ensures a != 0.0 ==> Square(a) > 0.0
  {
    if a < 0.0 {
      ProductPositive(-a, -a);
      assert Square(a) == Product(-a, -a);
    } else if a > 0.0 {
      ProductPositive(a, a);
      assert Square(a) == Product(a, a);
    }
  }

  lemma DotScale(c: real, v: Vec3)
    ensures Dot(Scale(c, v), Scale(c, v)) == c * c * Dot(v, v)
    ensures Dot(Scale(c, v), v) == c * Dot(v, v)
  {
  }

  lemma UnitAfterDivision(d: real, m: real)
    requires m > 0.0 && m * m == d
    ensures (1.0 / m) * (1.0 / m) * d == 1.0
  {
    calc {
      (1.0 / m) * (1.0 / m) * d;
      (1.0 / m) * (1.0 / m) * (m * m);
      ((1.0 / m) * m) * ((1.0 / m) * m);
      1.0;
    }
  }

  /** A square root of a positive number is positive. */
  lemma SqrtPositive(sqrt: real -> real, x: real)
    requires IsSqrt(sqrt) && x > 0.0
    ensures sqrt(x) > 0.0
  {
  }

  /** Squaring is strictly increasing on the non-negative reals. */
  lemma SquareStrictlyIncreasing(p: real, q: real)
    requires 0.0 <= p < q
    ensures p * p < q * q
  {
    assert p * (q - p) >= 0.0;
    assert q * (q - p) > 0.0;
  }

  /** The non-negative root is unique: sqrt(a * a) == a for a >= 0. */
  lemma SqrtOfSquare(sqrt: real -> real, a: real)
    requires IsSqrt(sqrt) && a >= 0.0
    ensures sqrt(a * a) == a
  {
    var r := sqrt(a * a);
    assert r >= 0.0 && r * r == a * a;
    if r < a {
      SquareStrictlyIncreasing(r, a);
    } else if a < r {
      SquareStrictlyIncreasing(a, r);
    }
  }
}
