/**
 * The polynomials of the general-case UV solve, over the eight corner
 * coordinates (p, l) (o, k) (u, j) (t, h) and a screen point (v, b), and the
 * real-arithmetic facts the sampler's proofs are assembled from.
 */
module SamplerAlgebra {

  /** The point a fraction `w` of the way from `a` to `b`. */
  function Along(a: real, b: real, w: real): real
  {
    a + (b - a) * w
  }

  lemma AlongSame(a: real, w: real)
    ensures Along(a, a, w) == a
  {
  }

  /** Interpolating rows then columns is interpolating columns then rows. */
  lemma AlongSwap(p: real, o: real, u: real, t: real, su: real, sv: real)
    ensures Along(Along(p, o, su), Along(u, t, su), sv) == Along(Along(p, u, sv), Along(o, t, sv), su)
  {
  }

  /** In a parallelogram (t = o + (u - p)) the bilinear point is the top-left corner plus both edges scaled. */
  lemma Parallelogram(p: real, o: real, u: real, t: real, su: real, sv: real)
    requires t == o + (u - p)
    ensures Along(Along(p, o, su), Along(u, t, su), sv) == p + (su * (o - p) + sv * (u - p))
    ensures Along(u, t, su) - Along(p, o, su) == u - p
  {
  }

  /** `v6`: the leading coefficient of the quadratic in U. */
  function Leading(p: real, o: real, u: real, t: real, l: real, k: real, j: real, h: real): real
  {
    (h - j) * o - (h - j) * p - (k - l) * t + (k - l) * u
  }

  /** `v7 = v2 + v3 + v4`: the linear coefficient. */
  function Linear(p: real, o: real, u: real, t: real, l: real, k: real, j: real, h: real, v: real, b: real): real
  {
    var v2 := (b - j) * o - (b + h - 2.0 * j) * p - (b - l) * t;
    var v3 := (b + k - 2.0 * l) * u;
    var v4 := (h - j - k + l) * v;
    v2 + v3 + v4
  }

  /** The constant term: (v - p, b - l) crossed with the left edge (u - p, j - l). */
  function Cross(p: real, u: real, l: real, j: real, v: real, b: real): real
  {
    (v - p) * (j - l) - (b - l) * (u - p)
  }

  /** The source's dense `v5`, term for term (`x.pow(2.0)` is `x * x`). */
  function Discriminant(p: real, o: real, u: real, t: real, l: real, k: real, j: real, h: real, v: real, b: real): real
  {
    var b2 := b * b;
    var j2 := j * j;
    var h2 := h * h;
    var l2 := l * l;
    var k2 := k * k;
    var v1 := b2 - 2.0 * b * h;
    (b2 - 2.0 * b * j + j2) * (o * o) - 2.0 * (b2 - b * h - (b - h) * j) * o * p + (v1 + h2) * (p * p)
    + (b2 - 2.0 * b * l + l2) * (t * t) + (b2 - 2.0 * b * k + k2) * (u * u)
    + (h2 - 2.0 * h * j + j2 - 2.0 * (h - j) * k + k2 + 2.0 * (h - j - k) * l + l2) * (v * v)
    - 2.0 * ((b2 - b * j - (b - j) * l) * o - (b2 + b * h - 2.0 * b * j - 2.0 * (b - j) * k + (b - h) * l) * p) * t
    + 2.0 * ((v1 + b * j + (b - j) * k - 2.0 * (b - h) * l) * o - (b2 - b * h - (b - h) * k) * p
             - (b2 - b * k - (b - k) * l) * t) * u
    + 2.0 * ((b * h - (b - h) * j - j2 - (b - j) * k + (b - 2.0 * h + j) * l) * o
             - (b * h + h2 - (b + h) * j - (b + h - 2.0 * j) * k + (b - h) * l) * p
             - (b * h - b * j - (b - 2.0 * j) * k + (b - h - j - k) * l + l2) * t
             + (b * h - b * j - (b - h - j) * k - k2 + (b - 2.0 * h + k) * l) * u) * v
  }

  /** The left-hand side of `a U^2 - b U - c = 0` at `r`. */
  function QuadraticAt(a: real, b: real, c: real, r: real): real
  {
    a * r * r - b * r - c
  }

  /** The discriminant of `a U^2 - b U - c`. */
  function DiscriminantOf(a: real, b: real, c: real): real
  {
    b * b + 4.0 * a * c
  }

  /**
   * The dense `v5` is `v7^2 + 4 v6 gamma`: the discriminant of
   * `v6 U^2 - v7 U - gamma`. Both sides are regrouped by powers of the
   * screen x coordinate `v`, and the three coefficients compared.
   */
  lemma DiscriminantPolynomial(p: real, o: real, u: real, t: real, l: real, k: real, j: real, h: real, v: real, b: real)
    ensures Discriminant(p, o, u, t, l, k, j, h, v, b) ==
      DiscriminantOf(Leading(p, o, u, t, l, k, j, h), Linear(p, o, u, t, l, k, j, h, v, b), Cross(p, u, l, j, v, b))
  {
    DenseForm(p, o, u, t, l, k, j, h, v, b);
    DenseByPowers(p, o, u, t, l, k, j, h, v, b);
    CoefficientsFactor(p, o, u, t, l, k, j, h, v, b);
    QuadraticByPowers(p, o, u, t, l, k, j, h, v, b);
    FactoredForm(p, o, u, t, l, k, j, h, v, b);
  }

  /** `v5` as the source writes it, with its local names expanded. */
  lemma DenseForm(p: real, o: real, u: real, t: real, l: real, k: real, j: real, h: real, v: real, b: real)
    ensures Discriminant(p, o, u, t, l, k, j, h, v, b) ==
      (b * b - 2.0 * b * j + j * j) * (o * o) - 2.0 * (b * b - b * h - (b - h) * j) * o * p + (b * b - 2.0 * b * h + h * h) * (p * p)
        + (b * b - 2.0 * b * l + l * l) * (t * t) + (b * b - 2.0 * b * k + k * k) * (u * u)
        + (h * h - 2.0 * h * j + j * j - 2.0 * (h - j) * k + k * k + 2.0 * (h - j - k) * l + l * l) * (v * v)
        - 2.0 * ((b * b - b * j - (b - j) * l) * o - (b * b + b * h - 2.0 * b * j - 2.0 * (b - j) * k + (b - h) * l) * p) * t
        + 2.0 * ((b * b - 2.0 * b * h + b * j + (b - j) * k - 2.0 * (b - h) * l) * o - (b * b - b * h - (b - h) * k) * p
                 - (b * b - b * k - (b - k) * l) * t) * u
        + 2.0 * ((b * h - (b - h) * j - j * j - (b - j) * k + (b - 2.0 * h + j) * l) * o
                 - (b * h + h * h - (b + h) * j - (b + h - 2.0 * j) * k + (b - h) * l) * p
                 - (b * h - b * j - (b - 2.0 * j) * k + (b - h - j - k) * l + l * l) * t
                 + (b * h - b * j - (b - h - j) * k - k * k + (b - 2.0 * h + k) * l) * u) * v
  {
  }

  /** The coefficients of `v^0`, `v^1` and `v^2` of the two sides agree. */
  lemma CoefficientsFactor(p: real, o: real, u: real, t: real, l: real, k: real, j: real, h: real, v: real, b: real)
    ensures ((b * b - 2.0 * b * j + j * j) * (o * o) - 2.0 * (b * b - b * h - (b - h) * j) * o * p + (b * b - 2.0 * b * h + h * h) * (p * p)
        + (b * b - 2.0 * b * l + l * l) * (t * t) + (b * b - 2.0 * b * k + k * k) * (u * u)
        - 2.0 * ((b * b - b * j - (b - j) * l) * o - (b * b + b * h - 2.0 * b * j - 2.0 * (b - j) * k + (b - h) * l) * p) * t
        + 2.0 * ((b * b - 2.0 * b * h + b * j + (b - j) * k - 2.0 * (b - h) * l) * o - (b * b - b * h - (b - h) * k) * p
                 - (b * b - b * k - (b - k) * l) * t) * u)
        + (h * h - 2.0 * h * j + j * j - 2.0 * (h - j) * k + k * k + 2.0 * (h - j - k) * l + l * l) * (v * v)
        + 2.0 * ((b * h - (b - h) * j - j * j - (b - j) * k + (b - 2.0 * h + j) * l) * o
                 - (b * h + h * h - (b + h) * j - (b + h - 2.0 * j) * k + (b - h) * l) * p
                 - (b * h - b * j - (b - 2.0 * j) * k + (b - h - j - k) * l + l * l) * t
                 + (b * h - b * j - (b - h - j) * k - k * k + (b - 2.0 * h + k) * l) * u) * v
      == (((b - j) * o - (b + h - 2.0 * j) * p - (b - l) * t + (b + k - 2.0 * l) * u) * ((b - j) * o - (b + h - 2.0 * j) * p - (b - l) * t + (b + k - 2.0 * l) * u) + 4.0 * ((h - j) * o - (h - j) * p - (k - l) * t + (k - l) * u) * ((b - j) * p - (b - l) * u))
        + ((h - j - k + l) * (h - j - k + l)) * (v * v)
        + (2.0 * ((b - j) * o - (b + h - 2.0 * j) * p - (b - l) * t + (b + k - 2.0 * l) * u) * (h - j - k + l) + 4.0 * ((h - j) * o - (h - j) * p - (k - l) * t + (k - l) * u) * (j - l)) * v
  {
    ConstantCoefficient(p, o, u, t, l, k, j, h, b);
    LinearCoefficient(p, o, u, t, l, k, j, h, b);
    SquareCoefficient(l, k, j, h);
  }

  /** `v7^2 + 4 v6 gamma` written out. */
  lemma FactoredForm(p: real, o: real, u: real, t: real, l: real, k: real, j: real, h: real, v: real, b: real)
    ensures ((b - j) * o - (b + h - 2.0 * j) * p - (b - l) * t + (b + k - 2.0 * l) * u + (h - j - k + l) * v) * ((b - j) * o - (b + h - 2.0 * j) * p - (b - l) * t + (b + k - 2.0 * l) * u + (h - j - k + l) * v)
        + 4.0 * ((h - j) * o - (h - j) * p - (k - l) * t + (k - l) * u) * ((v - p) * (j - l) - (b - l) * (u - p))
      == DiscriminantOf(Leading(p, o, u, t, l, k, j, h), Linear(p, o, u, t, l, k, j, h, v, b), Cross(p, u, l, j, v, b))
  {
  }

  /** The dense `v5` grouped by powers of `v`. */
  lemma DenseByPowers(p: real, o: real, u: real, t: real, l: real, k: real, j: real, h: real, v: real, b: real)
    ensures (b * b - 2.0 * b * j + j * j) * (o * o) - 2.0 * (b * b - b * h - (b - h) * j) * o * p + (b * b - 2.0 * b * h + h * h) * (p * p)
        + (b * b - 2.0 * b * l + l * l) * (t * t) + (b * b - 2.0 * b * k + k * k) * (u * u)
        + (h * h - 2.0 * h * j + j * j - 2.0 * (h - j) * k + k * k + 2.0 * (h - j - k) * l + l * l) * (v * v)
        - 2.0 * ((b * b - b * j - (b - j) * l) * o - (b * b + b * h - 2.0 * b * j - 2.0 * (b - j) * k + (b - h) * l) * p) * t
        + 2.0 * ((b * b - 2.0 * b * h + b * j + (b - j) * k - 2.0 * (b - h) * l) * o - (b * b - b * h - (b - h) * k) * p
                 - (b * b - b * k - (b - k) * l) * t) * u
        + 2.0 * ((b * h - (b - h) * j - j * j - (b - j) * k + (b - 2.0 * h + j) * l) * o
                 - (b * h + h * h - (b + h) * j - (b + h - 2.0 * j) * k + (b - h) * l) * p
                 - (b * h - b * j - (b - 2.0 * j) * k + (b - h - j - k) * l + l * l) * t
                 + (b * h - b * j - (b - h - j) * k - k * k + (b - 2.0 * h + k) * l) * u) * v
      == ((b * b - 2.0 * b * j + j * j) * (o * o) - 2.0 * (b * b - b * h - (b - h) * j) * o * p + (b * b - 2.0 * b * h + h * h) * (p * p)
        + (b * b - 2.0 * b * l + l * l) * (t * t) + (b * b - 2.0 * b * k + k * k) * (u * u)
        - 2.0 * ((b * b - b * j - (b - j) * l) * o - (b * b + b * h - 2.0 * b * j - 2.0 * (b - j) * k + (b - h) * l) * p) * t
        + 2.0 * ((b * b - 2.0 * b * h + b * j + (b - j) * k - 2.0 * (b - h) * l) * o - (b * b - b * h - (b - h) * k) * p
                 - (b * b - b * k - (b - k) * l) * t) * u)
        + (h * h - 2.0 * h * j + j * j - 2.0 * (h - j) * k + k * k + 2.0 * (h - j - k) * l + l * l) * (v * v)
        + 2.0 * ((b * h - (b - h) * j - j * j - (b - j) * k + (b - 2.0 * h + j) * l) * o
                 - (b * h + h * h - (b + h) * j - (b + h - 2.0 * j) * k + (b - h) * l) * p
                 - (b * h - b * j - (b - 2.0 * j) * k + (b - h - j - k) * l + l * l) * t
                 + (b * h - b * j - (b - h - j) * k - k * k + (b - 2.0 * h + k) * l) * u) * v
  {
  }

  /** `v7^2 + 4 v6 gamma` grouped by powers of `v`. */
  lemma QuadraticByPowers(p: real, o: real, u: real, t: real, l: real, k: real, j: real, h: real, v: real, b: real)
    ensures ((b - j) * o - (b + h - 2.0 * j) * p - (b - l) * t + (b + k - 2.0 * l) * u + (h - j - k + l) * v) * ((b - j) * o - (b + h - 2.0 * j) * p - (b - l) * t + (b + k - 2.0 * l) * u + (h - j - k + l) * v)
        + 4.0 * ((h - j) * o - (h - j) * p - (k - l) * t + (k - l) * u) * ((v - p) * (j - l) - (b - l) * (u - p))
      == (((b - j) * o - (b + h - 2.0 * j) * p - (b - l) * t + (b + k - 2.0 * l) * u) * ((b - j) * o - (b + h - 2.0 * j) * p - (b - l) * t + (b + k - 2.0 * l) * u) + 4.0 * ((h - j) * o - (h - j) * p - (k - l) * t + (k - l) * u) * ((b - j) * p - (b - l) * u))
        + ((h - j - k + l) * (h - j - k + l)) * (v * v)
        + (2.0 * ((b - j) * o - (b + h - 2.0 * j) * p - (b - l) * t + (b + k - 2.0 * l) * u) * (h - j - k + l) + 4.0 * ((h - j) * o - (h - j) * p - (k - l) * t + (k - l) * u) * (j - l)) * v
  {
  }

  /** The coefficients of `v^0`, `v^1` and `v^2` agree. */
  lemma ConstantCoefficient(p: real, o: real, u: real, t: real, l: real, k: real, j: real, h: real, b: real)
    ensures ((b * b - 2.0 * b * j + j * j) * (o * o) - 2.0 * (b * b - b * h - (b - h) * j) * o * p + (b * b - 2.0 * b * h + h * h) * (p * p)
        + (b * b - 2.0 * b * l + l * l) * (t * t) + (b * b - 2.0 * b * k + k * k) * (u * u)
        - 2.0 * ((b * b - b * j - (b - j) * l) * o - (b * b + b * h - 2.0 * b * j - 2.0 * (b - j) * k + (b - h) * l) * p) * t
        + 2.0 * ((b * b - 2.0 * b * h + b * j + (b - j) * k - 2.0 * (b - h) * l) * o - (b * b - b * h - (b - h) * k) * p
                 - (b * b - b * k - (b - k) * l) * t) * u)
      == ((b - j) * o - (b + h - 2.0 * j) * p - (b - l) * t + (b + k - 2.0 * l) * u) * ((b - j) * o - (b + h - 2.0 * j) * p - (b - l) * t + (b + k - 2.0 * l) * u) + 4.0 * ((h - j) * o - (h - j) * p - (k - l) * t + (k - l) * u) * ((b - j) * p - (b - l) * u)
  {
  }

  lemma LinearCoefficient(p: real, o: real, u: real, t: real, l: real, k: real, j: real, h: real, b: real)
    ensures 2.0 * ((b * h - (b - h) * j - j * j - (b - j) * k + (b - 2.0 * h + j) * l) * o
                 - (b * h + h * h - (b + h) * j - (b + h - 2.0 * j) * k + (b - h) * l) * p
                 - (b * h - b * j - (b - 2.0 * j) * k + (b - h - j - k) * l + l * l) * t
                 + (b * h - b * j - (b - h - j) * k - k * k + (b - 2.0 * h + k) * l) * u)
      == 2.0 * ((b - j) * o - (b + h - 2.0 * j) * p - (b - l) * t + (b + k - 2.0 * l) * u) * (h - j - k + l) + 4.0 * ((h - j) * o - (h - j) * p - (k - l) * t + (k - l) * u) * (j - l)
  {
  }

  lemma SquareCoefficient(l: real, k: real, j: real, h: real)
    ensures (h * h - 2.0 * h * j + j * j - 2.0 * (h - j) * k + k * k + 2.0 * (h - j - k) * l + l * l) == (h - j - k + l) * (h - j - k + l)
  {
  }

  /** The cross product of (v, b) - (tx, ty) with the segment from (tx, ty) to (bx, bottomY). */
  function SegmentCross(tx: real, bx: real, ty: real, bottomY: real, v: real, b: real): real
  {
    (v - tx) * (bottomY - ty) - (b - ty) * (bx - tx)
  }

  /**
   * The quadratic at U is minus the cross product of (v, b) - top(U) with the
   * segment from the top edge to the bottom edge at U.
   */
  lemma QuadraticIsCross(p: real, o: real, u: real, t: real, l: real, k: real, j: real, h: real, su: real, v: real, b: real)
    ensures QuadraticAt(Leading(p, o, u, t, l, k, j, h), Linear(p, o, u, t, l, k, j, h, v, b), Cross(p, u, l, j, v, b), su) ==
      -SegmentCross(Along(p, o, su), Along(u, t, su), Along(l, k, su), Along(j, h, su), v, b)
  {
    QuadraticWrittenOut(p, o, u, t, l, k, j, h, su, v, b);
    QuadraticCrossText(p, o, u, t, l, k, j, h, su, v, b);
    SegmentCrossWrittenOut(p, o, u, t, l, k, j, h, su, v, b);
  }

  lemma QuadraticWrittenOut(p: real, o: real, u: real, t: real, l: real, k: real, j: real, h: real, su: real, v: real, b: real)
    ensures QuadraticAt(Leading(p, o, u, t, l, k, j, h), Linear(p, o, u, t, l, k, j, h, v, b), Cross(p, u, l, j, v, b), su) ==
      ((h - j) * o - (h - j) * p - (k - l) * t + (k - l) * u) * su * su - ((b - j) * o - (b + h - 2.0 * j) * p - (b - l) * t + (b + k - 2.0 * l) * u + (h - j - k + l) * v) * su - ((v - p) * (j - l) - (b - l) * (u - p))
  {
  }

  lemma QuadraticCrossText(p: real, o: real, u: real, t: real, l: real, k: real, j: real, h: real, su: real, v: real, b: real)
    ensures ((h - j) * o - (h - j) * p - (k - l) * t + (k - l) * u) * su * su - ((b - j) * o - (b + h - 2.0 * j) * p - (b - l) * t + (b + k - 2.0 * l) * u + (h - j - k + l) * v) * su - ((v - p) * (j - l) - (b - l) * (u - p))
      == -((v - (p + (o - p) * su)) * ((j + (h - j) * su) - (l + (k - l) * su)) - (b - (l + (k - l) * su)) * ((u + (t - u) * su) - (p + (o - p) * su)))
  {
  }

  lemma SegmentCrossWrittenOut(p: real, o: real, u: real, t: real, l: real, k: real, j: real, h: real, su: real, v: real, b: real)
    ensures -SegmentCross(Along(p, o, su), Along(u, t, su), Along(l, k, su), Along(j, h, su), v, b) ==
      -((v - (p + (o - p) * su)) * ((j + (h - j) * su) - (l + (k - l) * su)) - (b - (l + (k - l) * su)) * ((u + (t - u) * su) - (p + (o - p) * su)))
  {
  }

  /** A point of a segment is parallel to it. */
  lemma OnSegment(tx: real, bx: real, ty: real, bottomY: real, w: real)
    ensures SegmentCross(tx, bx, ty, bottomY, Along(tx, bx, w), Along(ty, bottomY, w)) == 0.0
  {
    assert Along(tx, bx, w) - tx == (bx - tx) * w;
    assert Along(ty, bottomY, w) - ty == (bottomY - ty) * w;
  }

  /** The U of a bilinear point is a root of the point's quadratic. */
  lemma BilinearRootPolynomial(p: real, o: real, u: real, t: real, l: real, k: real, j: real, h: real, su: real, sv: real)
    ensures var v := Along(Along(p, o, su), Along(u, t, su), sv);
      var b := Along(Along(l, k, su), Along(j, h, su), sv);
      QuadraticAt(Leading(p, o, u, t, l, k, j, h), Linear(p, o, u, t, l, k, j, h, v, b), Cross(p, u, l, j, v, b), su) == 0.0
  {
    var v := Along(Along(p, o, su), Along(u, t, su), sv);
    var b := Along(Along(l, k, su), Along(j, h, su), sv);
    var cross := SegmentCross(Along(p, o, su), Along(u, t, su), Along(l, k, su), Along(j, h, su), v, b);
    assert cross == 0.0 by {
      OnSegment(Along(p, o, su), Along(u, t, su), Along(l, k, su), Along(j, h, su), sv);
    }
    QuadraticIsCross(p, o, u, t, l, k, j, h, su, v, b);
  }

  lemma Square(x: real)
    ensures x * x >= 0.0
    ensures x != 0.0 ==> x * x > 0.0
  {
    if x < 0.0 {
      assert x * x == (-x) * (-x);
    }
  }

  lemma SquareSumPositive(dx: real, dy: real)
    requires dx != 0.0 || dy != 0.0
    ensures dx * dx + dy * dy > 0.0
  {
    Square(dx);
    Square(dy);
  }

  /** Cancelling a positive factor. */
  lemma CancelPositive(q1: real, q2: real, c: real)
    requires c > 0.0 && q1 * c == q2 * c
    ensures q1 == q2
  {
    CancelFactor(q1, q2, c);
  }

  lemma ProductZero(a: real, b: real)
    requires a * b == 0.0
    ensures a == 0.0 || b == 0.0
  {
    if a != 0.0 {
      assert b == (a * b) / a;
    }
  }

  lemma CancelFactor(q1: real, q2: real, c: real)
    requires c != 0.0 && q1 * c == q2 * c
    ensures q1 == q2
  {
    assert (q1 - q2) * c == 0.0;
    ProductZero(q1 - q2, c);
  }

  lemma DivExact(a: real, b: real, c: real)
    requires b != 0.0 && a == b * c
    ensures a / b == c
  {
  }

  /** Each value of the quadratic formula is a root. */
  lemma QuadraticFormula(a: real, b: real, c: real, root: real, r: real)
    requires a != 0.0
    requires root * root == DiscriminantOf(a, b, c)
    requires r == 0.5 * (b - root) / a || r == 0.5 * (b + root) / a
    ensures QuadraticAt(a, b, c, r) == 0.0
  {
    var d := 2.0 * a * r - b;
    assert d == root || d == -root;
    assert d * d == root * root;
    assert 4.0 * a * (a * r * r - b * r - c) == 0.0;
    ProductZero(4.0 * a, a * r * r - b * r - c);
  }

  /** Every root is a value of the quadratic formula. */
  lemma {:induction false} RootIsFormulaValue(a: real, b: real, c: real, root: real, r: real)
    requires a != 0.0
    requires root * root == DiscriminantOf(a, b, c)
    requires QuadraticAt(a, b, c, r) == 0.0
    ensures r == 0.5 * (b - root) / a || r == 0.5 * (b + root) / a
  {
    var d := 2.0 * a * r - b;
    PerfectSquare(a, b, c, r);
    assert (d - root) * (d + root) == d * d - root * root;
    ProductZero(d - root, d + root);
    if d == root {
      DivExact(0.5 * (b + root), a, r);
    } else {
      DivExact(0.5 * (b - root), a, r);
    }
  }

  /** With U a root, the discriminant is a perfect square. */
  lemma PerfectSquare(a: real, b: real, c: real, r: real)
    requires QuadraticAt(a, b, c, r) == 0.0
    ensures DiscriminantOf(a, b, c) == (2.0 * a * r - b) * (2.0 * a * r - b)
  {
    var x := a * r * r - b * r;
    assert (2.0 * a * r - b) * (2.0 * a * r - b) == 4.0 * a * x + b * b;
  }

  /**
   * The line of slope `mt = a/d` through (x, y) meets the line of slope
   * `ms = -1/mt` through (p, l) at x = `min`; scaled by `a^2 + d^2` that
   * abscissa is a polynomial in the inputs.
   */
  lemma InterceptFormula(a: real, d: real, mt: real, ms: real, x: real, y: real, p: real, l: real, min: real)
    requires mt * d == a && ms * mt == -1.0
    requires min * (mt - ms) == (l - ms * p) - (y - mt * x)
    ensures min * (a * a + d * d) == a * d * l + d * d * p - a * d * y + a * a * x
  {
    assert ms * a == -d by {
      assert ms * a == (ms * mt) * d;
    }
    assert (mt - ms) * (a * d) == a * a + d * d by {
      assert (mt - ms) * (a * d) == (mt * d) * a - (ms * a) * d;
    }
    var sInt := (l - ms * p) - (y - mt * x);
    assert sInt * (a * d) == a * d * l + d * d * p - a * d * y + a * a * x by {
      assert sInt * (a * d) == l * a * d - (ms * a) * p * d - y * a * d + (mt * d) * x * a;
    }
    assert min * (a * a + d * d) == (min * (mt - ms)) * (a * d);
  }

  /** Neither slope of a top edge with both components non-zero is zero, and they differ. */
  lemma SlopeGap(a: real, d: real, mt: real, ms: real)
    requires a != 0.0 && d != 0.0 && mt * d == a && ms * mt == -1.0
    ensures mt != 0.0 && mt - ms != 0.0
  {
    assert ms * a == -d by {
      assert ms * a == (ms * mt) * d;
    }
    assert (mt - ms) * (a * d) == a * a + d * d by {
      assert (mt - ms) * (a * d) == (mt * d) * a - (ms * a) * d;
    }
    SquareSumPositive(a, d);
  }

  /**
   * The intercepts through the two top corners are the top edge's x extent
   * `d` apart, and `x - min`, scaled by the squared edge length, is `d`
   * times the projection of (x - p, y - l) on the edge.
   */
  lemma InterceptsApart(a: real, d: real, x: real, y: real, p: real, l: real, o: real, k: real, min: real, max: real)
    requires a == k - l && d == o - p && d != 0.0
    requires min * (a * a + d * d) == a * d * l + d * d * p - a * d * y + a * a * x
    requires max * (a * a + d * d) == a * d * k + d * d * o - a * d * y + a * a * x
    ensures max - min == d
    ensures (x - min) * (d * d + a * a) == d * ((x - p) * d + (y - l) * a)
  {
    var n := a * a + d * d;
    SquareSumPositive(a, d);
    assert (max - min) * n == max * n - min * n;
    assert max * n - min * n == a * d * a + d * d * d;
    assert a * d * a + d * d * d == d * n;
    CancelPositive(max - min, d, n);
  }
}
