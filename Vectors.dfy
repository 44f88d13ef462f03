/**
 * `Vector2D` and `Vector3D`. Both are value types whose operations return new
 * vectors; `Vector3D.apply` is the one in-place mutator, and it is modelled on
 * a separate reference cell, `Vector3DRef`, the form in which the camera owns
 * its position.
 */
module Vectors {
  import opened MathUtil

  datatype Vector2D = Vector2D(x: real, y: real)
  {
    /** `this * (1 - amount) + other * amount`. */
    function Lerp(other: Vector2D, amount: real): Vector2D
    {
      var inv := 1.0 - amount;
      Vector2D(x * inv + other.x * amount, y * inv + other.y * amount)
    }

    function Add(other: Vector2D): Vector2D
    {
      Vector2D(x + other.x, y + other.y)
    }

    function Subtract(other: Vector2D): Vector2D
    {
      Vector2D(x - other.x, y - other.y)
    }

    /** Rotation about the origin; a copy when the angle is below ZERO_TOLERANCE. */
    function Rotate(radians: real, m: Trig): Vector2D
    {
      if Abs(radians) < ZERO_TOLERANCE then this
      else
        var cosAng := m.cos(radians);
        var sinAng := m.sin(radians);
        Vector2D(x * cosAng - y * sinAng, x * sinAng + y * cosAng)
    }

    function Dot(other: Vector2D): real
    {
      (x * other.x) + (y * other.y)
    }
  }

  lemma LerpEndpoints(a: Vector2D, b: Vector2D)
    ensures a.Lerp(b, 0.0) == a
    ensures a.Lerp(b, 1.0) == b
  {
  }

  /** Lerp moves along the segment: the offset from `a` is `amount` times `b - a`. */
  lemma LerpOnSegment(a: Vector2D, b: Vector2D, amount: real)
    ensures a.Lerp(b, amount).Subtract(a) == Vector2D(amount * (b.x - a.x), amount * (b.y - a.y))
  {
  }

  lemma AddSubtract2D(a: Vector2D, b: Vector2D)
    ensures a.Add(b).Subtract(b) == a
    ensures a.Subtract(b).Add(b) == a
  {
  }

  lemma DotSymmetric(a: Vector2D, b: Vector2D)
    ensures a.Dot(b) == b.Dot(a)
  {
  }

  lemma RotateByZero(a: Vector2D, radians: real, m: Trig)
    requires Abs(radians) < ZERO_TOLERANCE
    ensures a.Rotate(radians, m) == a
  {
  }

  /** A rotation keeps the squared length, given sin^2 + cos^2 = 1. */
  lemma RotatePreservesLength(a: Vector2D, radians: real, m: Trig)
    requires Lawful(m)
    ensures a.Rotate(radians, m).Dot(a.Rotate(radians, m)) == a.Dot(a)
  {
    if Abs(radians) >= ZERO_TOLERANCE {
      var c, s := m.cos(radians), m.sin(radians);
      var r := a.Rotate(radians, m);
      calc {
        r.Dot(r);
        (a.x * c - a.y * s) * (a.x * c - a.y * s) + (a.x * s + a.y * c) * (a.x * s + a.y * c);
        a.x * a.x * (c * c + s * s) + a.y * a.y * (s * s + c * c);
        { assert s * s + c * c == 1.0; }
        a.x * a.x + a.y * a.y;
      }
    }
  }

  // ---------------------------------------------------------------------

  datatype Vector3D = Vector3D(x: real, y: real, z: real)
  {
    function Add(other: Vector3D): (r: Vector3D)
      ensures r.Subtract(other) == this
    {
      Vector3D(x + other.x, y + other.y, z + other.z)
    }

    function Subtract(other: Vector3D): Vector3D
    {
      Vector3D(x - other.x, y - other.y, z - other.z)
    }

    function Scale(k: real): Vector3D
    {
      Vector3D(k * x, k * y, k * z)
    }
  }

  const ORIGIN: Vector3D := Vector3D(0.0, 0.0, 0.0)

  lemma AddSubtract3D(a: Vector3D, b: Vector3D)
    ensures a.Add(b).Subtract(b) == a
    ensures a.Subtract(b).Add(b) == a
  {
  }

  lemma SubtractSelf(a: Vector3D)
    ensures a.Subtract(a) == ORIGIN
  {
  }

  lemma AddAssociative(a: Vector3D, b: Vector3D, c: Vector3D)
    ensures a.Add(b).Add(c) == a.Add(b.Add(c))
  {
  }

  /** A `Vector3D` object whose components are overwritten in place by `apply`. */
  class Vector3DRef {
    var x: real
    var y: real
    var z: real

    constructor (v: Vector3D)
      ensures Value() == v
    {
      x, y, z := v.x, v.y, v.z;
    }

    function Value(): Vector3D
      reads this
    {
      Vector3D(x, y, z)
    }

    /** `apply`: copies the components of `other` into this vector. */
    method Apply(other: Vector3DRef)
      modifies this
      ensures Value() == old(other.Value())
      ensures other.Value() == old(other.Value())
    {
      this.x := other.x;
      this.y := other.y;
      this.z := other.z;
    }

    /** The data-class `copy()`: a new object with the same components. */
    method Copy() returns (c: Vector3DRef)
      ensures fresh(c) && c.Value() == Value()
    {
      c := new Vector3DRef(Value());
    }
  }
}
