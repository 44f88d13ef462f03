/**
 * `Quaternion`: an immutable (x, y, z, w) value. Over the reals the Hamilton
 * product, the inverse and the vector rotation satisfy their algebraic
 * identities exactly.
 */
module Quaternions {
  import opened MathUtil
  import opened Vectors

  datatype Quaternion = Quaternion(x: real, y: real, z: real, w: real)
  {
    /** Component-wise comparison within EPSILON. */
    predicate FuzzyEquals(q2: Quaternion)
    {
      if !MathUtil.FuzzyEquals(x, q2.x) then false
      else if !MathUtil.FuzzyEquals(y, q2.y) then false
      else if !MathUtil.FuzzyEquals(z, q2.z) then false
      else MathUtil.FuzzyEquals(w, q2.w)
    }

    /**
     * Shortest-path spherical interpolation. `this` when `other` is fuzzily
     * equal; `other` is negated when the dot product is negative; plain linear
     * weights when `1 - dot <= 0.1`.
     */
    function Slerp(other: Quaternion, amount: real, m: Trig): (r: Quaternion)
      requires Lawful(m)
      ensures FuzzyEquals(other) ==> r == this
    {
      if FuzzyEquals(other) then this
      else
        var q2 := ShortArc(other);
        var res := Dot(q2);
        var scale0 := SlerpScale0(res, amount, m);
        var scale1 := SlerpScale1(res, amount, m);
        Quaternion(
          (scale0 * x) + (scale1 * q2.x),
          (scale0 * y) + (scale1 * q2.y),
          (scale0 * z) + (scale1 * q2.z),
          (scale0 * w) + (scale1 * q2.w))
    }

    /** The end point slerp heads for: `other`, or its negation when the dot product is negative. */
    function ShortArc(other: Quaternion): (q2: Quaternion)
      ensures Dot(q2) >= 0.0
      ensures q2 == other || q2 == other.Negate()
      ensures Dot(other) < 0.0 <==> q2 == other.Negate() && q2 != other
    {
      if Dot(other) < 0.0 then other.Negate() else other
    }

    /** The quaternion divided by its length; IDENTITY for (near) zero length. */
    function Normalize(m: Trig): (r: Quaternion)
      requires Lawful(m)
      ensures Norm() < ZERO_TOLERANCE ==> r == IDENTITY
      ensures Norm() >= ZERO_TOLERANCE && MathUtil.FuzzyEquals(Norm(), 1.0) ==> r == this
    {
      var lenSqr := Norm();
      if lenSqr < ZERO_TOLERANCE then IDENTITY
      else
        var len := if MathUtil.FuzzyEquals(lenSqr, 1.0) then 1.0 else m.sqrt(lenSqr);
        assert len > 0.0 by { SqrtPositive(m, lenSqr); }
        Quaternion(x / len, y / len, z / len, w / len)
    }

    /** Hamilton product `this * q`. */
    function Mult(q: Quaternion): Quaternion
    {
      Quaternion(
        x * q.w + y * q.z - z * q.y + w * q.x,
        -x * q.z + y * q.w + z * q.x + w * q.y,
        x * q.y - y * q.x + z * q.w + w * q.z,
        -x * q.x - y * q.y - z * q.z + w * q.w)
    }

    /** Rotation of a vector, by the expanded form of `q v q*`. */
    function MultVec(v: Vector3D): Vector3D
    {
      Vector3D(
        w * w * v.x + 2.0 * y * w * v.z - 2.0 * z * w * v.y + x * x * v.x + 2.0 * y * x * v.y + 2.0 * z * x * v.z - z * z * v.x - y * y * v.x,
        2.0 * x * y * v.x + y * y * v.y + 2.0 * z * y * v.z + 2.0 * w * z * v.x - z * z * v.y + w * w * v.y - 2.0 * x * w * v.z - x * x * v.y,
        2.0 * x * z * v.x + 2.0 * y * z * v.y + z * z * v.z - 2.0 * w * y * v.x - y * y * v.z + 2.0 * w * x * v.y - x * x * v.z + w * w * v.z)
    }

    function Dot(q: Quaternion): real
    {
      (x * q.x) + (y * q.y) + (z * q.z) + (w * q.w)
    }

    /** The squared length. */
    function Norm(): (r: real)
      ensures r >= 0.0
    {
      SquaresNonNegative(x, y, z, w);
      Dot(this)
    }

    /** Conjugate over squared norm; IDENTITY for a non-positive norm. */
    function Inverse(): Quaternion
    {
      var norm := Norm();
      if norm > 0.0 then
        var invNorm := 1.0 / norm;
        Quaternion(-x * invNorm, -y * invNorm, -z * invNorm, w * invNorm)
      else IDENTITY
    }

    function Negate(): Quaternion
    {
      Quaternion(-x, -y, -z, -w)
    }

    /** The conjugate (not in the source; the reference for `MultVec` and `Inverse`). */
    function Conjugate(): Quaternion
    {
      Quaternion(-x, -y, -z, w)
    }
  }

  const IDENTITY: Quaternion := Quaternion(0.0, 0.0, 0.0, 1.0)

  lemma SquaresNonNegative(x: real, y: real, z: real, w: real)
    ensures x * x + y * y + z * z + w * w >= 0.0
  {
    assert x * x >= 0.0 && y * y >= 0.0 && z * z >= 0.0 && w * w >= 0.0;
  }

  /** The slerp weight of `this`. */
  function SlerpScale0(res: real, amount: real, m: Trig): real
    requires Lawful(m)
    requires res >= 0.0
  {
    if (1.0 - res) > 0.1 then
      var theta := m.acos(res);
      m.sin((1.0 - amount) * theta) * (1.0 / m.sin(theta))
    else 1.0 - amount
  }

  /** The slerp weight of the (possibly negated) other end point. */
  function SlerpScale1(res: real, amount: real, m: Trig): real
    requires Lawful(m)
    requires res >= 0.0
  {
    if (1.0 - res) > 0.1 then
      var theta := m.acos(res);
      m.sin(amount * theta) * (1.0 / m.sin(theta))
    else amount
  }

  /** `fromAngles`: half-angle composition in Z, Y, X order, then normalized. */
  function FromAngles(xAngle: real, yAngle: real, zAngle: real, m: Trig): Quaternion
    requires Lawful(m)
  {
    FromAnglesRaw(xAngle, yAngle, zAngle, m).Normalize(m)
  }

  /** The half-angle composition of `fromAngles`, before normalization. */
  function FromAnglesRaw(xAngle: real, yAngle: real, zAngle: real, m: Trig): Quaternion
  {
    var sinZ, cosZ := m.sin(zAngle * 0.5), m.cos(zAngle * 0.5);
    var sinY, cosY := m.sin(yAngle * 0.5), m.cos(yAngle * 0.5);
    var sinX, cosX := m.sin(xAngle * 0.5), m.cos(xAngle * 0.5);
    var cosYXcosZ := cosY * cosZ;
    var sinYXsinZ := sinY * sinZ;
    var cosYXsinZ := cosY * sinZ;
    var sinYXcosZ := sinY * cosZ;
    Quaternion(
      cosYXcosZ * sinX + sinYXsinZ * cosX,
      sinYXcosZ * cosX + cosYXsinZ * sinX,
      cosYXsinZ * cosX - sinYXcosZ * sinX,
      cosYXcosZ * cosX - sinYXsinZ * sinX)
  }

  // ---------------------------------------------------------------------
  // Properties

  lemma FuzzyEqualsMeaning(q: Quaternion, q2: Quaternion)
    ensures q.FuzzyEquals(q2) <==>
      Abs(q.x - q2.x) <= EPSILON && Abs(q.y - q2.y) <= EPSILON &&
      Abs(q.z - q2.z) <= EPSILON && Abs(q.w - q2.w) <= EPSILON
  {
  }

  lemma FuzzyEqualsReflexive(q: Quaternion)
    ensures q.FuzzyEquals(q)
  {
  }

  lemma FuzzyEqualsSymmetric(q: Quaternion, q2: Quaternion)
    ensures q.FuzzyEquals(q2) <==> q2.FuzzyEquals(q)
  {
  }

  lemma MultIdentity(q: Quaternion)
    ensures q.Mult(IDENTITY) == q
    ensures IDENTITY.Mult(q) == q
  {
  }

  lemma IdentityRotatesNothing(v: Vector3D)
    ensures IDENTITY.MultVec(v) == v
  {
  }

  /** `q * q.inverse()` and `q.inverse() * q` are exactly IDENTITY for a non-zero quaternion. */
  lemma MultInverse(q: Quaternion)
    requires q.Norm() > 0.0
    ensures q.Mult(q.Inverse()) == IDENTITY
    ensures q.Inverse().Mult(q) == IDENTITY
  {
    InverseProducts(q.x, q.y, q.z, q.w, q.Inverse().x, q.Inverse().y, q.Inverse().z, q.Inverse().w,
                    q.Norm(), 1.0 / q.Norm());
  }

  /** The products of (x, y, z, w) with its conjugate scaled by `inv`, the inverse of the squared length `n`. */
  lemma InverseProducts(x: real, y: real, z: real, w: real, ix: real, iy: real, iz: real, iw: real, n: real, inv: real)
    requires n == x * x + y * y + z * z + w * w && n * inv == 1.0
    requires ix == -x * inv && iy == -y * inv && iz == -z * inv && iw == w * inv
    ensures x * iw + y * iz - z * iy + w * ix == 0.0
    ensures -x * iz + y * iw + z * ix + w * iy == 0.0
    ensures x * iy - y * ix + z * iw + w * iz == 0.0
    ensures -x * ix - y * iy - z * iz + w * iw == 1.0
    ensures ix * w + iy * z - iz * y + iw * x == 0.0
    ensures -ix * z + iy * w + iz * x + iw * y == 0.0
    ensures ix * y - iy * x + iz * w + iw * z == 0.0
    ensures -ix * x - iy * y - iz * z + iw * w == 1.0
  {
  }

  lemma InverseOfDegenerate(q: Quaternion)
    requires q.Norm() <= 0.0
    ensures q.Inverse() == IDENTITY
  {
  }

  /** For a unit quaternion the inverse is the conjugate. */
  lemma InverseOfUnit(q: Quaternion)
    requires q.Norm() == 1.0
    ensures q.Inverse() == q.Conjugate()
  {
  }

  /** The vector part of a vector as a pure quaternion. */
  function Pure(v: Vector3D): Quaternion
  {
    Quaternion(v.x, v.y, v.z, 0.0)
  }

  /** `MultVec` is the vector part of the sandwich product `q * v * conj(q)`. */
  lemma MultVecIsSandwich(q: Quaternion, v: Vector3D)
    ensures var s := q.Mult(Pure(v)).Mult(q.Conjugate());
      q.MultVec(v) == Vector3D(s.x, s.y, s.z) && s.w == 0.0
  {
    SandwichX(q, v);
    SandwichY(q, v);
    SandwichZ(q, v);
    SandwichW(q, v);
  }

  lemma SandwichX(q: Quaternion, v: Vector3D)
    ensures q.MultVec(v).x == q.Mult(Pure(v)).Mult(q.Conjugate()).x
  {
  }

  lemma SandwichY(q: Quaternion, v: Vector3D)
    ensures q.MultVec(v).y == q.Mult(Pure(v)).Mult(q.Conjugate()).y
  {
  }

  lemma SandwichZ(q: Quaternion, v: Vector3D)
    ensures q.MultVec(v).z == q.Mult(Pure(v)).Mult(q.Conjugate()).z
  {
  }

  lemma SandwichW(q: Quaternion, v: Vector3D)
    ensures q.Mult(Pure(v)).Mult(q.Conjugate()).w == 0.0
  {
  }

  /** Rotation is linear: scaling the input scales the output. */
  lemma MultVecScale(q: Quaternion, v: Vector3D, k: real)
    ensures q.MultVec(v.Scale(k)) == q.MultVec(v).Scale(k)
  {
    MultVecScaleX(q, v, k);
    MultVecScaleY(q, v, k);
    MultVecScaleZ(q, v, k);
    ScaledComponents(q.MultVec(v.Scale(k)), q.MultVec(v), k);
  }

  lemma ScaledComponents(a: Vector3D, b: Vector3D, k: real)
    requires a.x == k * b.x && a.y == k * b.y && a.z == k * b.z
    ensures a == b.Scale(k)
  {
  }

  lemma MultVecScaleX(q: Quaternion, v: Vector3D, k: real)
    ensures q.MultVec(v.Scale(k)).x == k * q.MultVec(v).x
  {
  }

  lemma MultVecScaleY(q: Quaternion, v: Vector3D, k: real)
    ensures q.MultVec(v.Scale(k)).y == k * q.MultVec(v).y
  {
  }

  lemma MultVecScaleZ(q: Quaternion, v: Vector3D, k: real)
    ensures q.MultVec(v.Scale(k)).z == k * q.MultVec(v).z
  {
  }

  lemma NegateInvolution(q: Quaternion)
    ensures q.Negate().Negate() == q
  {
  }

  lemma NormIsSelfDot(q: Quaternion)
    ensures q.Norm() == q.Dot(q) && q.Norm() >= 0.0
    ensures q.Negate().Norm() == q.Norm()
  {
  }

  lemma NormalizeUnit(q: Quaternion, m: Trig)
    requires Lawful(m)
    requires MathUtil.FuzzyEquals(q.Norm(), 1.0)
    ensures q.Normalize(m) == q
  {
  }

  /** Away from both guards, `normalize` divides by the square root of the norm and so yields a unit quaternion. */
  lemma {:induction false} NormalizeToUnit(q: Quaternion, m: Trig)
    requires Lawful(m)
    requires q.Norm() >= ZERO_TOLERANCE && !MathUtil.FuzzyEquals(q.Norm(), 1.0)
    ensures q.Normalize(m).Norm() == 1.0
  {
    var n := q.Norm();
    var len := m.sqrt(n);
    SqrtPositive(m, n);
    assert len * len == n;
    var r := q.Normalize(m);
    assert r == Quaternion(q.x / len, q.y / len, q.z / len, q.w / len);
    ScaledNorm(q, len);
  }

  /** Dividing every component by `len` divides the norm by `len` squared. */
  lemma ScaledNorm(q: Quaternion, len: real)
    requires len > 0.0
    ensures Quaternion(q.x / len, q.y / len, q.z / len, q.w / len).Norm() * (len * len) == q.Norm()
  {
    var r := Quaternion(q.x / len, q.y / len, q.z / len, q.w / len);
    assert r.x * len == q.x && r.y * len == q.y && r.z * len == q.z && r.w * len == q.w;
    calc {
      r.Norm() * (len * len);
      (r.x * r.x + r.y * r.y + r.z * r.z + r.w * r.w) * (len * len);
      (r.x * len) * (r.x * len) + (r.y * len) * (r.y * len) + (r.z * len) * (r.z * len) + (r.w * len) * (r.w * len);
      q.Norm();
    }
  }

  /** `fromAngles(0, 0, 0)` is IDENTITY. */
  lemma FromAnglesZero(m: Trig)
    requires Lawful(m)
    ensures FromAngles(0.0, 0.0, 0.0, m) == IDENTITY
  {
    FromAnglesRawZero(m);
    NormalizeIdentity(m);
  }

  lemma FromAnglesRawZero(m: Trig)
    requires m.sin(0.0) == 0.0 && m.cos(0.0) == 1.0
    ensures FromAnglesRaw(0.0, 0.0, 0.0, m) == IDENTITY
  {
    assert 0.0 * 0.5 == 0.0;
  }

  lemma NormalizeIdentity(m: Trig)
    requires Lawful(m)
    ensures IDENTITY.Normalize(m) == IDENTITY
  {
    assert IDENTITY.Norm() == 1.0;
  }

  /** In the linear branch the weights are `1 - amount` and `amount`. */
  lemma SlerpLinearWeights(res: real, amount: real, m: Trig)
    requires Lawful(m)
    requires 0.0 <= res && 1.0 - res <= 0.1
    ensures SlerpScale0(res, amount, m) == 1.0 - amount
    ensures SlerpScale1(res, amount, m) == amount
  {
  }

  /**
   * At amount 0 slerp yields `this`, at amount 1 the short-arc end point,
   * in the linear and in the trigonometric branch alike.
   */
  lemma {:induction false} SlerpEndpoints(q: Quaternion, other: Quaternion, m: Trig)
    requires Lawful(m)
    requires !q.FuzzyEquals(other)
    ensures q.Slerp(other, 0.0, m) == q
    ensures q.Slerp(other, 1.0, m) == q.ShortArc(other)
  {
    var q2 := q.ShortArc(other);
    var res := q.Dot(q2);
    if 1.0 - res > 0.1 {
      var theta := m.acos(res);
      assert m.sin(theta) > 0.0;
      assert (1.0 - 0.0) * theta == theta && 0.0 * theta == 0.0;
      assert (1.0 - 1.0) * theta == 0.0 && 1.0 * theta == theta;
      assert m.sin(theta) * (1.0 / m.sin(theta)) == 1.0;
      assert SlerpScale0(res, 0.0, m) == 1.0 && SlerpScale1(res, 0.0, m) == 0.0;
      assert SlerpScale0(res, 1.0, m) == 0.0 && SlerpScale1(res, 1.0, m) == 1.0;
    }
  }
}
