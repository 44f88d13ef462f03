/**
 * `UVSampler`: inverts the bilinear map from texture coordinates (U, V) in
 * [0,1]^2 to a point of a screen quadrilateral. Construction classifies the
 * quad into a kind (0 general, 1 vertical sides, 2 horizontal top and bottom,
 * 3 axis-aligned rectangle, 4 rotated rectangle) and stores its corners as
 * eight coordinates under the source's own names:
 *
 *     top-left (p, l)   top-right (o, k)   bottom-left (u, j)   bottom-right (t, h)
 *
 * Doubles are reals. A division whose divisor may be exactly zero yields an
 * IEEE infinity or NaN in the source, and every such value then fails the
 * `in 0.0..1.0` test that follows; here such a quotient is `None` (`Quot`).
 */
module Sampling {
  import opened Wrappers
  import opened MathUtil
  import opened Vectors
  import opened SamplerAlgebra

  /** The `in 0.0..1.0` test. */
  predicate InUnit(x: real)
  {
    0.0 <= x <= 1.0
  }

  /**
   * How `sampleUV(samplePos, out)` ends: false on a miss, true after both
   * writes, or an `ArrayIndexOutOfBoundsException` from a hit into an
   * array shorter than two.
   */
  datatype Stored = Missed | Written | IndexOutOfBounds

  /**
   * The two writes `out[0] = u; out[1] = v` of a hit, stopping at the
   * first index the array does not have.
   */
  method Store(out: array<real>, u: real, v: real) returns (r: Stored)
    modifies out
    ensures r == Written <==> out.Length >= 2
    ensures r == IndexOutOfBounds <==> out.Length < 2
    ensures out.Length >= 2 ==> out[..] == old(out[..])[0 := u][1 := v]
    ensures out.Length == 1 ==> out[..] == [u]
    ensures out.Length == 0 ==> out[..] == old(out[..])
  {
    if out.Length == 0 {
      return IndexOutOfBounds;
    }
    out[0] := u;
    if out.Length == 1 {
      return IndexOutOfBounds;
    }
    out[1] := v;
    return Written;
  }

  /** A quotient that the source may compute with a zero divisor: `None` stands for the infinity or NaN. */
  function Quot(a: real, b: real): (r: Option<real>)
    ensures r.Some? <==> b != 0.0
    ensures r.Some? ==> r.value * b == a
  {
    if b == 0.0 then None else Some(a / b)
  }

  /** `makeFlag`: bit `place` set iff `value`. */
  function MakeFlag(value: bool, place: bv32): bv32
    requires place < 32
  {
    if value then 1 << place else 0
  }

  datatype UVSampler = UVSampler(p: real, o: real, u: real, t: real,
                                 l: real, k: real, j: real, h: real,
                                 kind: int)
  {
    // -------------------------------------------------------------------
    // The reference map and the quadratic of the general case

    /** The reference map: along the top and bottom edges by `su`, then from the top edge to the bottom one by `sv`. */
    function Bilinear(su: real, sv: real): Vector2D
    {
      Vector2D(Along(Along(p, o, su), Along(u, t, su), sv), Along(Along(l, k, su), Along(j, h, su), sv))
    }

    /** Leading coefficient of the quadratic in U; zero for every parallelogram. */
    function V6(): real
    {
      Leading(p, o, u, t, l, k, j, h)
    }

    /** Linear coefficient of the quadratic in U (`v2 + v3 + v4`). */
    function V7(pos: Vector2D): real
    {
      Linear(p, o, u, t, l, k, j, h, pos.x, pos.y)
    }

    /** The constant term: the cross product of (pos - top-left) with the left edge. */
    function Gamma(pos: Vector2D): real
    {
      Cross(p, u, l, j, pos.x, pos.y)
    }

    /** The equation whose roots are the U of the bilinear points through `pos`. */
    function Quadratic(pos: Vector2D, r: real): real
    {
      QuadraticAt(V6(), V7(pos), Gamma(pos), r)
    }

    // -------------------------------------------------------------------
    // The per-axis solvers

    /** `sampleU` as written, on this point's coefficients. */
    function SampleUAsWritten(pos: Vector2D, m: Trig): real
    {
      SolveAsWritten(V6(), V7(pos), Gamma(pos), m)
    }

    /** `sampleU` with the linear case solved, on this point's coefficients. */
    function SampleU(pos: Vector2D, m: Trig): real
    {
      SolveCorrected(V6(), V7(pos), Gamma(pos), m)
    }

    /** `sampleV`: the parameter of `pos` along the segment from the top edge to the bottom edge at `su`. */
    function SampleV(pos: Vector2D, su: real): Option<real>
    {
      SegmentParam(pos, Along(p, o, su), Along(u, t, su), Along(l, k, su), Along(j, h, su))
    }

    /** Type 4 as written, on this quad's top edge. */
    function RectangleUAsWritten(pos: Vector2D): Option<real>
    {
      SlopeU(Vector2D(p, l), Vector2D(o, k), pos)
    }

    /** Type 4, on this quad's top edge. */
    function RectangleU(pos: Vector2D): Option<real>
    {
      ProjectU(Vector2D(p, l), Vector2D(o, k), pos)
    }

    /** Types 0 and 4 once U is known: U and then `sampleV` at U must both lie in [0,1]. */
    function FromU(pos: Vector2D, su: Option<real>): (r: Option<Vector2D>)
      ensures r.Some? ==> InUnit(r.value.x) && InUnit(r.value.y)
      ensures r.Some? ==> Some(r.value.x) == su && Some(r.value.y) == SampleV(pos, r.value.x)
    {
      if su.None? || !InUnit(su.value) then None
      else
        var sv := SampleV(pos, su.value);
        if sv.None? || !InUnit(sv.value) then None
        else Some(Vector2D(su.value, sv.value))
    }

    /** Types 1 and 3 (`type and 1`): U is the ratio of x across the top edge; V by ratio of y for type 3, else by `sampleV`. */
    function VerticalSides(pos: Vector2D): (r: Option<Vector2D>)
      ensures r.Some? ==> InUnit(r.value.x) && InUnit(r.value.y)
      ensures r.Some? ==> r.value.x == SafeDiv(pos.x - p, o - p)
    {
      var su := SafeDiv(pos.x - p, o - p);
      if !InUnit(su) then None
      else
        var sv := if kind == 3 then Some(SafeDiv(pos.y - l, j - l)) else SampleV(pos, su);
        if sv.None? || !InUnit(sv.value) then None
        else Some(Vector2D(su, sv.value))
    }

    /** Type 2: V is the ratio of y down the left edge; U the ratio of x across the row at V. */
    function HorizontalEdges(pos: Vector2D): (r: Option<Vector2D>)
      ensures r.Some? ==> InUnit(r.value.x) && InUnit(r.value.y)
      ensures r.Some? ==> r.value.y == SafeDiv(pos.y - l, j - l)
    {
      var sv := SafeDiv(pos.y - l, j - l);
      if !InUnit(sv) then None
      else
        var leftX := Along(p, u, sv);
        var rightX := Along(o, t, sv);
        var su := SafeDiv(pos.x - leftX, rightX - leftX);
        if !InUnit(su) then None
        else Some(Vector2D(su, sv))
    }

    /**
     * `sampleUV` as written: the texture coordinates of `pos` by the
     * formula of the quad's kind, or `None` when either coordinate misses
     * [0,1].
     */
    function SampleUVAsWritten(pos: Vector2D, m: Trig): (r: Option<Vector2D>)
      ensures r.Some? ==> InUnit(r.value.x) && InUnit(r.value.y)
    {
      if kind < 1 then FromU(pos, Some(SampleUAsWritten(pos, m)))
      else if kind % 2 == 1 then VerticalSides(pos)
      else if kind == 4 then FromU(pos, RectangleUAsWritten(pos))
      else HorizontalEdges(pos)
    }

    /** `sampleUV` with the corrected U of types 0 and 4. */
    function SampleUV(pos: Vector2D, m: Trig): (r: Option<Vector2D>)
      ensures r.Some? ==> InUnit(r.value.x) && InUnit(r.value.y)
    {
      if kind < 1 then FromU(pos, Some(SampleU(pos, m)))
      else if kind % 2 == 1 then VerticalSides(pos)
      else if kind == 4 then FromU(pos, RectangleU(pos))
      else HorizontalEdges(pos)
    }

    /** The sampler as written, or with the corrected U of types 0 and 4 when `corrected`. */
    function Sample(pos: Vector2D, m: Trig, corrected: bool): (r: Option<Vector2D>)
      ensures r.Some? ==> InUnit(r.value.x) && InUnit(r.value.y)
    {
      if corrected then SampleUV(pos, m) else SampleUVAsWritten(pos, m)
    }

    /**
     * `sampleUV(samplePos, out)`: on a miss answers false and writes
     * nothing; on a hit writes U to `out[0]` and V to `out[1]` and answers
     * true, or throws once an index is past the end of a shorter array.
     */
    method SampleUVInto(pos: Vector2D, m: Trig, out: array<real>) returns (r: Stored)
      modifies out
      ensures r == Missed <==> SampleUVAsWritten(pos, m).None?
      ensures r == Written <==> SampleUVAsWritten(pos, m).Some? && out.Length >= 2
      ensures r == IndexOutOfBounds <==> SampleUVAsWritten(pos, m).Some? && out.Length < 2
      ensures r == Written ==>
        out[0] == SampleUVAsWritten(pos, m).value.x && out[1] == SampleUVAsWritten(pos, m).value.y &&
        InUnit(out[0]) && InUnit(out[1]) && out[2..] == old(out[2..])
      ensures r == IndexOutOfBounds && out.Length == 1 ==> out[0] == SampleUVAsWritten(pos, m).value.x
      ensures r == Missed || (r == IndexOutOfBounds && out.Length == 0) ==> out[..] == old(out[..])
    {
      if kind < 1 {
        var su := SampleUAsWritten(pos, m);
        if !InUnit(su) {
          return Missed;
        }
        var sv := SampleV(pos, su);
        if sv.None? || !InUnit(sv.value) {
          return Missed;
        }
        r := Store(out, su, sv.value);
      } else if kind % 2 == 1 {
        var su := SafeDiv(pos.x - p, o - p);
        if !InUnit(su) {
          return Missed;
        }
        var sv := if kind == 3 then Some(SafeDiv(pos.y - l, j - l)) else SampleV(pos, su);
        if sv.None? || !InUnit(sv.value) {
          return Missed;
        }
        r := Store(out, su, sv.value);
      } else if kind == 4 {
        var su := RectangleUAsWritten(pos);
        if su.None? || !InUnit(su.value) {
          return Missed;
        }
        var sv := SampleV(pos, su.value);
        if sv.None? || !InUnit(sv.value) {
          return Missed;
        }
        r := Store(out, su.value, sv.value);
      } else {
        var sv := SafeDiv(pos.y - l, j - l);
        if !InUnit(sv) {
          return Missed;
        }
        var leftX := Along(p, u, sv);
        var rightX := Along(o, t, sv);
        var su := SafeDiv(pos.x - leftX, rightX - leftX);
        if !InUnit(su) {
          return Missed;
        }
        r := Store(out, su, sv);
      }
    }

    /** `sampleUV(samplePos)`: the array overload on a fresh two-element array, `None` for a miss. */
    method SampleUVNullable(pos: Vector2D, m: Trig) returns (r: Option<Vector2D>)
      ensures r == SampleUVAsWritten(pos, m)
    {
      var out := new real[2];
      var stored := SampleUVInto(pos, m, out);
      if stored == Missed {
        return None;
      }
      return Some(Vector2D(out[0], out[1]));
    }
  }

  /**
   * Type 4 as written: the line of slope `mt` of the top edge through
   * `pos` meets the lines of slope `ms = -1/mt` through the top corners at
   * x = `min` and x = `max`, and U is where `pos.x` falls between them. A
   * vertical or horizontal top edge makes a slope infinite, and every later
   * quotient NaN.
   */
  function SlopeU(topLeft: Vector2D, topRight: Vector2D, pos: Vector2D): Option<real>
  {
    var mt := Quot(topRight.y - topLeft.y, topRight.x - topLeft.x);
    if mt.None? then None
    else
      var ms := Quot(-1.0, mt.value);
      if ms.None? then None
      else SlopeIntercepts(topLeft, topRight, pos, mt.value, ms.value)
  }

  /** The rest of `SlopeU` once the slopes `mt` (top edge) and `ms` (its normal) are finite. */
  function SlopeIntercepts(topLeft: Vector2D, topRight: Vector2D, pos: Vector2D, mt: real, ms: real): Option<real>
  {
    var min := Intercept(pos, topLeft, mt, ms);
    var max := Intercept(pos, topRight, mt, ms);
    if min.None? || max.None? then None
    else Quot(pos.x - min.value, max.value - min.value)
  }

  /**
   * The x at which the line of slope `mt` through `pos` (intercept `bt`)
   * meets the line of slope `ms` through `corner` (intercept `bs`).
   */
  function Intercept(pos: Vector2D, corner: Vector2D, mt: real, ms: real): Option<real>
  {
    var bt := pos.y - mt * pos.x;
    var bs := corner.y - ms * corner.x;
    Quot(bs - bt, mt - ms)
  }

  /** The projection of `pos - topLeft` on the top edge, over the edge's squared length; `None` for a zero-length edge. */
  function ProjectU(topLeft: Vector2D, topRight: Vector2D, pos: Vector2D): (r: Option<real>)
    ensures r.Some? <==> topRight.x != topLeft.x || topRight.y != topLeft.y
  {
    var edge := topRight.Subtract(topLeft);
    EdgeLength(edge);
    Quot(pos.Subtract(topLeft).Dot(edge), edge.Dot(edge))
  }

  /** Only the zero vector has zero squared length. */
  lemma EdgeLength(e: Vector2D)
    ensures e.Dot(e) == 0.0 <==> e.x == 0.0 && e.y == 0.0
  {
    if e.x != 0.0 || e.y != 0.0 {
      SquareSumPositive(e.x, e.y);
      calc {
        e.Dot(e);
        e.x * e.x + e.y * e.y;
      >
        0.0;
      }
    } else {
      assert e.Dot(e) == 0.0 * 0.0 + 0.0 * 0.0;
    }
  }

  /**
   * The root search of `sampleU` on the coefficients of `a U^2 - b U - c = 0`
   * (`a = v6`, `b = v7`, `c = gamma`): -1 when `a` is zero or the
   * discriminant `v5 = b^2 + 4ac` is negative, else the root
   * `(b - sqrt v5) / 2a` when it lies in [0,1], else the other root.
   */
  function SolveAsWritten(a: real, b: real, c: real, m: Trig): real
  {
    if a == 0.0 then -1.0
    else
      var v5 := DiscriminantOf(a, b, c);
      if v5 < 0.0 then -1.0
      else
        var root := m.sqrt(v5);
        var ret := 0.5 * (b - root) / a;
        if InUnit(ret) then ret
        else 0.5 * (b + root) / a
  }

  /**
   * The root search with its linear case solved: when `a` is zero (every
   * parallelogram) the equation is `b U + c = 0`.
   */
  function SolveCorrected(a: real, b: real, c: real, m: Trig): real
  {
    if a == 0.0 then
      if b == 0.0 then -1.0 else -c / b
    else SolveAsWritten(a, b, c, m)
  }

  /** Outside its two guards, the root search returns a root, the smaller-numerator one when it lies in [0,1]. */
  lemma {:induction false} SolveAsWrittenRoot(a: real, b: real, c: real, m: Trig)
    requires Lawful(m)
    requires a != 0.0 && DiscriminantOf(a, b, c) >= 0.0
    ensures QuadraticAt(a, b, c, SolveAsWritten(a, b, c, m)) == 0.0
    ensures var first := 0.5 * (b - m.sqrt(DiscriminantOf(a, b, c))) / a;
      InUnit(first) ==> SolveAsWritten(a, b, c, m) == first
  {
    var root := m.sqrt(DiscriminantOf(a, b, c));
    assert root * root == DiscriminantOf(a, b, c);
    QuadraticFormula(a, b, c, root, SolveAsWritten(a, b, c, m));
  }

  /**
   * With no square term and a unique root in [0,1], the linear coefficient
   * is not zero and the root is `-c / b`.
   */
  lemma LinearCase(b: real, c: real, su: real)
    requires InUnit(su) && QuadraticAt(0.0, b, c, su) == 0.0
    requires forall r :: InUnit(r) && QuadraticAt(0.0, b, c, r) == 0.0 ==> r == su
    ensures b != 0.0 && -c / b == su
  {
    assert 0.0 * su * su == 0.0;
    assert QuadraticAt(0.0, b, c, 0.0) == -c;
    assert QuadraticAt(0.0, b, c, 1.0) == -b - c;
    assert InUnit(0.0) && InUnit(1.0);
    assert b != 0.0;
    DivExact(-c, b, su);
  }

  /** The corrected search finds the root whenever it is the only one in [0,1]. */
  lemma {:induction false} SolveCorrectedFinds(a: real, b: real, c: real, m: Trig, su: real)
    requires Lawful(m)
    requires InUnit(su) && QuadraticAt(a, b, c, su) == 0.0
    requires forall r :: InUnit(r) && QuadraticAt(a, b, c, r) == 0.0 ==> r == su
    ensures SolveCorrected(a, b, c, m) == su
  {
    if a == 0.0 {
      LinearCase(b, c, su);
    } else {
      var root := m.sqrt(DiscriminantOf(a, b, c));
      RootedDiscriminant(a, b, c, su, m);
      FormulaPicksRoot(a, b, c, root, su);
    }
  }

  /** A quadratic with a root has a non-negative discriminant, whose square root squares back to it. */
  lemma RootedDiscriminant(a: real, b: real, c: real, su: real, m: Trig)
    requires Lawful(m)
    requires QuadraticAt(a, b, c, su) == 0.0
    ensures DiscriminantOf(a, b, c) >= 0.0
    ensures m.sqrt(DiscriminantOf(a, b, c)) * m.sqrt(DiscriminantOf(a, b, c)) == DiscriminantOf(a, b, c)
  {
    PerfectSquare(a, b, c, su);
    Square(2.0 * a * su - b);
  }

  /** The formula value tried first is kept when it lies in [0,1]; either way the unique root in [0,1] is chosen. */
  lemma {:induction false} FormulaPicksRoot(a: real, b: real, c: real, root: real, su: real)
    requires a != 0.0 && root * root == DiscriminantOf(a, b, c)
    requires InUnit(su) && QuadraticAt(a, b, c, su) == 0.0
    requires forall r :: InUnit(r) && QuadraticAt(a, b, c, r) == 0.0 ==> r == su
    ensures var first := 0.5 * (b - root) / a;
      (if InUnit(first) then first else 0.5 * (b + root) / a) == su
  {
    RootIsFormulaValue(a, b, c, root, su);
    var first := 0.5 * (b - root) / a;
    if InUnit(first) {
      QuadraticFormula(a, b, c, root, first);
    }
  }

  /**
   * The parameter of `pos` along the segment from (tx, ty) to (bx, bottomY):
   * matched in x, or in y when the segment is within ZERO_TOLERANCE of
   * vertical.
   */
  function SegmentParam(pos: Vector2D, tx: real, bx: real, ty: real, bottomY: real): (r: Option<real>)
    ensures Abs(bx - tx) < ZERO_TOLERANCE ==> r == Quot(pos.y - ty, bottomY - ty)
    ensures Abs(bx - tx) >= ZERO_TOLERANCE ==> r.Some? && Along(tx, bx, r.value) == pos.x
  {
    var diffX := bx - tx;
    if Abs(diffX) < ZERO_TOLERANCE then Quot(pos.y - ty, bottomY - ty)
    else Some((pos.x - tx) / diffX)
  }

  /** A point of the segment has its own parameter, unless the segment is a point. */
  lemma {:induction false} SegmentParamInverts(tx: real, bx: real, ty: real, bottomY: real, sv: real)
    requires Abs(bx - tx) >= ZERO_TOLERANCE || bottomY != ty
    ensures SegmentParam(Vector2D(Along(tx, bx, sv), Along(ty, bottomY, sv)), tx, bx, ty, bottomY) == Some(sv)
  {
    if Abs(bx - tx) < ZERO_TOLERANCE {
      DivExact(Along(ty, bottomY, sv) - ty, bottomY - ty, sv);
    } else {
      DivExact(Along(tx, bx, sv) - tx, bx - tx, sv);
    }
  }

  /** `safeDiv`: 0 when the divisor is below ZERO_TOLERANCE in magnitude, else the quotient. */
  function SafeDiv(a: real, b: real): (r: real)
    ensures Abs(b) < ZERO_TOLERANCE ==> r == 0.0
    ensures Abs(b) >= ZERO_TOLERANCE ==> r * b == a
  {
    if Abs(b) < ZERO_TOLERANCE then 0.0 else a / b
  }

  /** The constructor: flags, tie-break perturbation and kind. */
  function NewSampler(topLeft: Vector2D, topRight: Vector2D, bottomLeft: Vector2D, bottomRight: Vector2D): UVSampler
  {
    var topHorizontal := FuzzyEquals(topLeft.y, topRight.y);
    var bottomHorizontal := FuzzyEquals(bottomLeft.y, bottomRight.y);
    var horizontal := topHorizontal && bottomHorizontal;
    var yAdd := if topHorizontal != bottomHorizontal then EPSILON else 0.0;

    var leftVertical := FuzzyEquals(topLeft.x, bottomLeft.x);
    var rightVertical := FuzzyEquals(topRight.x, bottomRight.x);
    var vertical := leftVertical && rightVertical;
    var xAdd := if leftVertical != rightVertical then EPSILON else 0.0;

    var flags := (MakeFlag(horizontal, 1) | MakeFlag(vertical, 0)) as int;
    var dotA := topRight.Subtract(topLeft).Dot(bottomLeft.Subtract(topLeft));
    var dotB := topLeft.Subtract(topRight).Dot(bottomRight.Subtract(topRight));
    var kind := if flags == 0 && Abs(dotA) < EPSILON && Abs(dotB) < EPSILON then 4 else flags;

    UVSampler(topLeft.x, topRight.x, bottomLeft.x + xAdd, bottomRight.x + xAdd,
              topLeft.y, topRight.y + yAdd, bottomLeft.y, bottomRight.y + yAdd,
              kind)
  }

  // ---------------------------------------------------------------------
  // Classification

  /** The kind is 0..4; bit 0 is "both sides vertical", bit 1 "top and bottom horizontal"; 4 only for a square-cornered quad with neither. */
  lemma {:induction false} NewSamplerKind(tl: Vector2D, tr: Vector2D, bl: Vector2D, br: Vector2D)
    ensures var s := NewSampler(tl, tr, bl, br);
      var vertical := FuzzyEquals(tl.x, bl.x) && FuzzyEquals(tr.x, br.x);
      var horizontal := FuzzyEquals(tl.y, tr.y) && FuzzyEquals(bl.y, br.y);
      && 0 <= s.kind <= 4
      && (s.kind < 4 ==> (s.kind % 2 == 1 <==> vertical) && (s.kind / 2 == 1 <==> horizontal))
      && (s.kind == 4 <==>
            !vertical && !horizontal &&
            Abs(tr.Subtract(tl).Dot(bl.Subtract(tl))) < EPSILON &&
            Abs(tl.Subtract(tr).Dot(br.Subtract(tr))) < EPSILON)
  {
    var vertical := FuzzyEquals(tl.x, bl.x) && FuzzyEquals(tr.x, br.x);
    var horizontal := FuzzyEquals(tl.y, tr.y) && FuzzyEquals(bl.y, br.y);
    var flags := (MakeFlag(horizontal, 1) | MakeFlag(vertical, 0)) as int;
    if horizontal {
      if vertical { assert flags == 3; } else { assert flags == 2; }
    } else {
      if vertical { assert flags == 1; } else { assert flags == 0; }
    }
  }

  /**
   * The stored corners are the given ones, except that the tie-break moves
   * the fuzzily aligned edge's far coordinate by EPSILON when exactly one
   * edge of a pair is aligned.
   */
  lemma NewSamplerCorners(tl: Vector2D, tr: Vector2D, bl: Vector2D, br: Vector2D)
    ensures var s := NewSampler(tl, tr, bl, br);
      && s.p == tl.x && s.l == tl.y && s.o == tr.x && s.j == bl.y
      && Abs(s.u - bl.x) <= EPSILON && Abs(s.t - br.x) <= EPSILON && s.u - bl.x == s.t - br.x
      && Abs(s.k - tr.y) <= EPSILON && Abs(s.h - br.y) <= EPSILON && s.k - tr.y == s.h - br.y
      && (FuzzyEquals(tl.x, bl.x) == FuzzyEquals(tr.x, br.x) ==> s.u == bl.x && s.t == br.x)
      && (FuzzyEquals(tl.y, tr.y) == FuzzyEquals(bl.y, br.y) ==> s.k == tr.y && s.h == br.y)
      && (FuzzyEquals(tl.x, bl.x) != FuzzyEquals(tr.x, br.x) ==> s.u == bl.x + EPSILON && s.t == br.x + EPSILON)
      && (FuzzyEquals(tl.y, tr.y) != FuzzyEquals(bl.y, br.y) ==> s.k == tr.y + EPSILON && s.h == br.y + EPSILON)
  {
  }

  // ---------------------------------------------------------------------
  // The general case

  /** The source's dense `v5`, term for term, is the discriminant of the quadratic. */
  lemma DiscriminantIdentity(s: UVSampler, pos: Vector2D)
    ensures Discriminant(s.p, s.o, s.u, s.t, s.l, s.k, s.j, s.h, pos.x, pos.y) ==
      DiscriminantOf(s.V6(), s.V7(pos), s.Gamma(pos))
  {
    DiscriminantPolynomial(s.p, s.o, s.u, s.t, s.l, s.k, s.j, s.h, pos.x, pos.y);
  }

  /** The U of every bilinear point is a root of its quadratic. */
  lemma BilinearRoot(s: UVSampler, su: real, sv: real)
    ensures s.Quadratic(s.Bilinear(su, sv), su) == 0.0
  {
    var pos := s.Bilinear(su, sv);
    BilinearRootPolynomial(s.p, s.o, s.u, s.t, s.l, s.k, s.j, s.h, su, sv);
  }

  /** `sampleU` misses when `v6` is zero or the discriminant is negative. */
  lemma SampleUAsWrittenGuards(s: UVSampler, pos: Vector2D, m: Trig)
    ensures s.V6() == 0.0 ==> s.SampleUAsWritten(pos, m) == -1.0
    ensures DiscriminantOf(s.V6(), s.V7(pos), s.Gamma(pos)) < 0.0 ==> s.SampleUAsWritten(pos, m) == -1.0
  {
  }

  /** When neither guard fires, `sampleU` returns a root of the point's quadratic. */
  lemma {:induction false} SampleUAsWrittenRoot(s: UVSampler, pos: Vector2D, m: Trig)
    requires Lawful(m)
    requires s.V6() != 0.0 && DiscriminantOf(s.V6(), s.V7(pos), s.Gamma(pos)) >= 0.0
    ensures s.Quadratic(pos, s.SampleUAsWritten(pos, m)) == 0.0
  {
    SolveAsWrittenRoot(s.V6(), s.V7(pos), s.Gamma(pos), m);
  }

  /**
   * The corrected `sampleU` recovers U from a bilinear point whenever U is
   * the only root in [0,1] (in the linear case as well).
   */
  lemma {:induction false} SampleUInverts(s: UVSampler, su: real, sv: real, m: Trig)
    requires Lawful(m)
    requires InUnit(su)
    requires forall r :: InUnit(r) && s.Quadratic(s.Bilinear(su, sv), r) == 0.0 ==> r == su
    ensures s.SampleU(s.Bilinear(su, sv), m) == su
  {
    var pos := s.Bilinear(su, sv);
    BilinearRoot(s, su, sv);
    UniqueRootCoefficients(s, pos, su);
    SolveCorrectedFinds(s.V6(), s.V7(pos), s.Gamma(pos), m, su);
  }

  lemma UniqueRootCoefficients(s: UVSampler, pos: Vector2D, su: real)
    requires forall r :: InUnit(r) && s.Quadratic(pos, r) == 0.0 ==> r == su
    ensures forall r :: InUnit(r) && QuadraticAt(s.V6(), s.V7(pos), s.Gamma(pos), r) == 0.0 ==> r == su
  {
    forall r | InUnit(r) && QuadraticAt(s.V6(), s.V7(pos), s.Gamma(pos), r) == 0.0
      ensures r == su
    {
      assert s.Quadratic(pos, r) == 0.0;
    }
  }

  /** `sampleV` recovers V from a bilinear point at its own U, unless the segment there is degenerate. */
  lemma {:induction false} SampleVInverts(s: UVSampler, su: real, sv: real)
    requires var tx := Along(s.p, s.o, su);
      var bx := Along(s.u, s.t, su);
      Abs(bx - tx) >= ZERO_TOLERANCE || Along(s.j, s.h, su) != Along(s.l, s.k, su)
    ensures s.SampleV(s.Bilinear(su, sv), su) == Some(sv)
  {
    SegmentParamInverts(Along(s.p, s.o, su), Along(s.u, s.t, su), Along(s.l, s.k, su), Along(s.j, s.h, su), sv);
  }

  /** The inverse-consistency property for a general (kind 0) quad. */
  lemma {:induction false} RoundTripGeneral(s: UVSampler, su: real, sv: real, m: Trig)
    requires Lawful(m)
    requires s.kind == 0
    requires InUnit(su) && InUnit(sv)
    requires forall r :: InUnit(r) && s.Quadratic(s.Bilinear(su, sv), r) == 0.0 ==> r == su
    requires var tx := Along(s.p, s.o, su);
      var bx := Along(s.u, s.t, su);
      Abs(bx - tx) >= ZERO_TOLERANCE || Along(s.j, s.h, su) != Along(s.l, s.k, su)
    ensures s.SampleUV(s.Bilinear(su, sv), m) == Some(Vector2D(su, sv))
    ensures s.V6() != 0.0 ==> s.SampleUVAsWritten(s.Bilinear(su, sv), m) == Some(Vector2D(su, sv))
  {
    SampleUInverts(s, su, sv, m);
    SampleVInverts(s, su, sv);
    SamplersAgree(s, s.Bilinear(su, sv), m);
  }

  // ---------------------------------------------------------------------
  // The special kinds

  /** A point a fraction `w` along a long enough span has ratio `w`. */
  lemma AlongRatio(a: real, b: real, w: real)
    requires Abs(b - a) >= ZERO_TOLERANCE
    ensures SafeDiv(Along(a, b, w) - a, b - a) == w
  {
    DivExact(Along(a, b, w) - a, b - a, w);
  }

  /**
   * Kind 3, an axis-aligned rectangle up to the fuzzy tolerance: U and V are
   * plain ratios of x across the top edge and of y down the left edge.
   */
  lemma {:induction false} RoundTripRectangleAxisAligned(s: UVSampler, su: real, sv: real, m: Trig)
    requires s.kind == 3
    requires Abs(s.o - s.p) >= ZERO_TOLERANCE && Abs(s.j - s.l) >= ZERO_TOLERANCE
    requires InUnit(su) && InUnit(sv)
    ensures var pos := Vector2D(Along(s.p, s.o, su), Along(s.l, s.j, sv));
      && s.SampleUV(pos, m) == Some(Vector2D(su, sv))
      && s.SampleUVAsWritten(pos, m) == Some(Vector2D(su, sv))
  {
    AlongRatio(s.p, s.o, su);
    AlongRatio(s.l, s.j, sv);
  }

  /** Kind 1, exactly vertical sides: U is a ratio of x, V comes from `sampleV`. */
  lemma {:induction false} RoundTripVerticalSides(s: UVSampler, su: real, sv: real, m: Trig)
    requires s.kind == 1
    requires s.u == s.p && s.t == s.o
    requires Abs(s.o - s.p) >= ZERO_TOLERANCE
    requires Along(s.j, s.h, su) != Along(s.l, s.k, su)
    requires InUnit(su) && InUnit(sv)
    ensures s.SampleUV(s.Bilinear(su, sv), m) == Some(Vector2D(su, sv))
    ensures s.SampleUVAsWritten(s.Bilinear(su, sv), m) == Some(Vector2D(su, sv))
  {
    var pos := s.Bilinear(su, sv);
    assert pos.x == Along(s.p, s.o, su) by {
      AlongSame(Along(s.p, s.o, su), sv);
    }
    AlongRatio(s.p, s.o, su);
    SampleVInverts(s, su, sv);
  }

  /** Kind 2, exactly horizontal top and bottom: V is a ratio of y, U a ratio along the row. */
  lemma {:induction false} RoundTripHorizontalEdges(s: UVSampler, su: real, sv: real, m: Trig)
    requires s.kind == 2
    requires s.k == s.l && s.h == s.j
    requires Abs(s.j - s.l) >= ZERO_TOLERANCE
    requires Abs(Along(s.o, s.t, sv) - Along(s.p, s.u, sv)) >= ZERO_TOLERANCE
    requires InUnit(su) && InUnit(sv)
    ensures s.SampleUV(s.Bilinear(su, sv), m) == Some(Vector2D(su, sv))
    ensures s.SampleUVAsWritten(s.Bilinear(su, sv), m) == Some(Vector2D(su, sv))
  {
    var pos := s.Bilinear(su, sv);
    assert pos == Vector2D(Along(Along(s.p, s.u, sv), Along(s.o, s.t, sv), su), Along(s.l, s.j, sv)) by {
      AlongSwap(s.p, s.o, s.u, s.t, su, sv);
      AlongSame(s.l, su);
      AlongSame(s.j, su);
    }
    calc {
      s.SampleUV(pos, m);
      s.HorizontalEdges(pos);
    == { HorizontalEdgesAt(s, su, sv); }
      Some(Vector2D(su, sv));
    }
  }

  /** The kind-2 formula recovers (U, V) from a point of the row at V. */
  lemma HorizontalEdgesAt(s: UVSampler, su: real, sv: real)
    requires Abs(s.j - s.l) >= ZERO_TOLERANCE
    requires Abs(Along(s.o, s.t, sv) - Along(s.p, s.u, sv)) >= ZERO_TOLERANCE
    requires InUnit(su) && InUnit(sv)
    ensures s.HorizontalEdges(Vector2D(Along(Along(s.p, s.u, sv), Along(s.o, s.t, sv), su), Along(s.l, s.j, sv)))
         == Some(Vector2D(su, sv))
  {
    AlongRatio(s.l, s.j, sv);
    AlongRatio(Along(s.p, s.u, sv), Along(s.o, s.t, sv), su);
  }

  /** A point `su` along edge `d` and `sv` along a perpendicular edge `e` projects onto `d` at `su`. */
  lemma ProjectionRecovers(topLeft: Vector2D, d: Vector2D, e: Vector2D, su: real, sv: real)
    requires d.Dot(e) == 0.0 && d != Vector2D(0.0, 0.0)
    ensures var pos := Vector2D(topLeft.x + (su * d.x + sv * e.x), topLeft.y + (su * d.y + sv * e.y));
      ProjectU(topLeft, topLeft.Add(d), pos) == Some(su)
  {
    var pos := Vector2D(topLeft.x + (su * d.x + sv * e.x), topLeft.y + (su * d.y + sv * e.y));
    assert topLeft.Add(d).Subtract(topLeft) == d;
    assert pos.Subtract(topLeft) == Vector2D(su * d.x + sv * e.x, su * d.y + sv * e.y);
    EdgeLength(d);
    assert pos.Subtract(topLeft).Dot(d) == su * d.Dot(d) + sv * d.Dot(e);
    DivExact(pos.Subtract(topLeft).Dot(d), d.Dot(d), su);
  }

  /** Kind 4, an exact rectangle in any orientation. */
  lemma {:induction false} RoundTripRotatedRectangle(s: UVSampler, su: real, sv: real, m: Trig)
    requires s.kind == 4
    requires s.t == s.o + (s.u - s.p) && s.h == s.k + (s.j - s.l)
    requires (s.o - s.p) * (s.u - s.p) + (s.k - s.l) * (s.j - s.l) == 0.0
    requires (s.o, s.k) != (s.p, s.l)
    requires Abs(s.u - s.p) >= ZERO_TOLERANCE || s.j != s.l
    requires InUnit(su) && InUnit(sv)
    ensures s.SampleUV(s.Bilinear(su, sv), m) == Some(Vector2D(su, sv))
    ensures s.o != s.p && s.k != s.l ==> s.SampleUVAsWritten(s.Bilinear(su, sv), m) == Some(Vector2D(su, sv))
  {
    var topLeft := Vector2D(s.p, s.l);
    var d := Vector2D(s.o - s.p, s.k - s.l);
    var e := Vector2D(s.u - s.p, s.j - s.l);
    Parallelogram(s.p, s.o, s.u, s.t, su, sv);
    Parallelogram(s.l, s.k, s.j, s.h, su, sv);
    assert s.Bilinear(su, sv) == Vector2D(topLeft.x + (su * d.x + sv * e.x), topLeft.y + (su * d.y + sv * e.y));
    assert topLeft.Add(d) == Vector2D(s.o, s.k);
    ProjectionRecovers(topLeft, d, e, su, sv);
    SampleVInverts(s, su, sv);
    SamplersAgree(s, s.Bilinear(su, sv), m);
  }

  // ---------------------------------------------------------------------
  // The two formulas that the source gets wrong

  /** The slope construction agrees with the projection whenever the top edge is neither vertical nor horizontal. */
  lemma {:induction false} SlopeUAgrees(topLeft: Vector2D, topRight: Vector2D, pos: Vector2D)
    requires topRight.x != topLeft.x && topRight.y != topLeft.y
    ensures SlopeU(topLeft, topRight, pos) == ProjectU(topLeft, topRight, pos)
  {
    Slopes(topRight.y - topLeft.y, topRight.x - topLeft.x);
    SlopeInterceptsAgree(topLeft, topRight, pos, Quot(topRight.y - topLeft.y, topRight.x - topLeft.x).value,
                         Quot(-1.0, Quot(topRight.y - topLeft.y, topRight.x - topLeft.x).value).value);
  }

  /** The quads on which the sampler as written misses everywhere: kind 0 with no square term, kind 4 with an axis-parallel top edge. */
  predicate BlindSpot(s: UVSampler)
  {
    (s.kind < 1 && s.V6() == 0.0) || (s.kind == 4 && (s.o == s.p || s.k == s.l))
  }

  /**
   * The correction changes nothing outside the blind spots, and inside
   * them the sampler as written never hits.
   */
  lemma {:induction false} SamplersAgree(s: UVSampler, pos: Vector2D, m: Trig)
    ensures !BlindSpot(s) ==> s.SampleUVAsWritten(pos, m) == s.SampleUV(pos, m)
    ensures BlindSpot(s) ==> s.SampleUVAsWritten(pos, m) == None
  {
    if s.kind == 4 && s.o != s.p && s.k != s.l {
      SlopeUAgrees(Vector2D(s.p, s.l), Vector2D(s.o, s.k), pos);
    } else if s.kind == 4 && s.o != s.p {
      var mt := Quot(s.k - s.l, s.o - s.p);
      assert mt.value * (s.o - s.p) == 0.0;
      assert mt.value == 0.0;
      assert Quot(-1.0, mt.value) == None;
    }
  }

  /** The slope `a/d` of an edge with both components non-zero, and the slope `-d/a` of its normal, are finite. */
  lemma Slopes(a: real, d: real)
    requires a != 0.0 && d != 0.0
    ensures Quot(a, d).Some? && Quot(a, d).value * d == a
    ensures Quot(-1.0, Quot(a, d).value).Some?
    ensures Quot(-1.0, Quot(a, d).value).value * Quot(a, d).value == -1.0
  {
    var mt := Quot(a, d).value;
    SlopeGap(a, d, mt, -1.0 / mt);
  }

  // ---------------------------------------------------------------------
  // Inputs on which the formulas as written miss

  /**
   * A square whose top edge is vertical is kind 4, and the slope
   * construction misses its centre; the projection finds it.
   */
  lemma RectangleVerticalTopMisses(m: Trig)
    ensures var s := NewSampler(Vector2D(1.0, 1.0), Vector2D(1.0, 11.0), Vector2D(-9.0, 1.0), Vector2D(-9.0, 11.0));
      && s.kind == 4
      && s.SampleUVAsWritten(Vector2D(-4.0, 6.0), m) == None
      && s.SampleUV(Vector2D(-4.0, 6.0), m) == Some(Vector2D(0.5, 0.5))
  {
    VerticalTopSquare();
    var s := UVSampler(1.0, 1.0, -9.0, -9.0, 1.0, 11.0, 1.0, 11.0, 4);
    var pos := Vector2D(-4.0, 6.0);
    assert s.RectangleUAsWritten(pos) == None;
    assert s.RectangleU(pos) == Some(0.5);
    assert s.SampleV(pos, 0.5) == Some(0.5);
  }

  lemma VerticalTopSquare()
    ensures NewSampler(Vector2D(1.0, 1.0), Vector2D(1.0, 11.0), Vector2D(-9.0, 1.0), Vector2D(-9.0, 11.0))
         == UVSampler(1.0, 1.0, -9.0, -9.0, 1.0, 11.0, 1.0, 11.0, 4)
  {
    assert !FuzzyEquals(1.0, 11.0) && !FuzzyEquals(1.0, -9.0);
    assert (MakeFlag(false, 1) | MakeFlag(false, 0)) as int == 0;
  }

  /**
   * A parallelogram that is not axis-aligned is kind 0 with `v6` zero, and
   * `sampleU` as written misses its centre; the linear case finds it.
   */
  lemma ParallelogramMisses(m: Trig)
    ensures var s := NewSampler(Vector2D(1.0, 1.0), Vector2D(11.0, 3.0), Vector2D(2.0, 11.0), Vector2D(12.0, 13.0));
      && s.kind == 0 && s.V6() == 0.0
      && s.SampleUVAsWritten(Vector2D(6.5, 7.0), m) == None
      && s.SampleUV(Vector2D(6.5, 7.0), m) == Some(Vector2D(0.5, 0.5))
  {
    SlantedParallelogram();
    var s := UVSampler(1.0, 11.0, 2.0, 12.0, 1.0, 3.0, 11.0, 13.0, 0);
    var pos := Vector2D(6.5, 7.0);
    assert s.V6() == 0.0;
    assert s.SampleUAsWritten(pos, m) == -1.0;
    assert s.SampleU(pos, m) == 0.5;
    assert s.SampleV(pos, 0.5) == Some(0.5);
  }

  lemma SlantedParallelogram()
    ensures NewSampler(Vector2D(1.0, 1.0), Vector2D(11.0, 3.0), Vector2D(2.0, 11.0), Vector2D(12.0, 13.0))
         == UVSampler(1.0, 11.0, 2.0, 12.0, 1.0, 3.0, 11.0, 13.0, 0)
  {
    assert !FuzzyEquals(1.0, 3.0) && !FuzzyEquals(11.0, 13.0);
    assert !FuzzyEquals(1.0, 2.0) && !FuzzyEquals(11.0, 12.0);
    assert (MakeFlag(false, 1) | MakeFlag(false, 0)) as int == 0;
  }

  /** With exact slopes, the intercept construction is the projection. */
  lemma SlopeInterceptsAgree(topLeft: Vector2D, topRight: Vector2D, pos: Vector2D, mt: real, ms: real)
    requires topRight.x != topLeft.x && topRight.y != topLeft.y
    requires mt * (topRight.x - topLeft.x) == topRight.y - topLeft.y && ms * mt == -1.0
    ensures SlopeIntercepts(topLeft, topRight, pos, mt, ms) == ProjectU(topLeft, topRight, pos)
  {
    InterceptsRatio(topLeft, topRight, pos, mt, ms);
  }

  /** Both intercepts are finite, and `pos.x` placed between them is the projection ratio. */
  lemma InterceptsRatio(topLeft: Vector2D, topRight: Vector2D, pos: Vector2D, mt: real, ms: real)
    requires topRight.x != topLeft.x && topRight.y != topLeft.y
    requires mt * (topRight.x - topLeft.x) == topRight.y - topLeft.y && ms * mt == -1.0
    ensures Intercept(pos, topLeft, mt, ms).Some? && Intercept(pos, topRight, mt, ms).Some?
    ensures Quot(pos.x - Intercept(pos, topLeft, mt, ms).value,
                 Intercept(pos, topRight, mt, ms).value - Intercept(pos, topLeft, mt, ms).value)
         == ProjectU(topLeft, topRight, pos)
  {
    InterceptAt(pos, topLeft, topRight.y - topLeft.y, topRight.x - topLeft.x, mt, ms);
    InterceptAt(pos, topRight, topRight.y - topLeft.y, topRight.x - topLeft.x, mt, ms);
    RatioIsProjection(topLeft, topRight, pos, Intercept(pos, topLeft, mt, ms).value, Intercept(pos, topRight, mt, ms).value);
  }

  /** The intercept through `corner`, scaled by the squared edge length `a^2 + d^2`, is a polynomial. */
  lemma InterceptAt(pos: Vector2D, corner: Vector2D, a: real, d: real, mt: real, ms: real)
    requires a != 0.0 && d != 0.0 && mt * d == a && ms * mt == -1.0
    ensures Intercept(pos, corner, mt, ms).Some?
    ensures Intercept(pos, corner, mt, ms).value * (a * a + d * d)
         == a * d * corner.y + d * d * corner.x - a * d * pos.y + a * a * pos.x
  {
    SlopeGap(a, d, mt, ms);
    InterceptFormula(a, d, mt, ms, pos.x, pos.y, corner.x, corner.y, Intercept(pos, corner, mt, ms).value);
  }

  /** `pos.x` placed between the two intercepts is the projection ratio. */
  lemma RatioIsProjection(topLeft: Vector2D, topRight: Vector2D, pos: Vector2D, min: real, max: real)
    requires topRight.x != topLeft.x
    requires var a := topRight.y - topLeft.y; var d := topRight.x - topLeft.x;
      min * (a * a + d * d) == a * d * topLeft.y + d * d * topLeft.x - a * d * pos.y + a * a * pos.x
    requires var a := topRight.y - topLeft.y; var d := topRight.x - topLeft.x;
      max * (a * a + d * d) == a * d * topRight.y + d * d * topRight.x - a * d * pos.y + a * a * pos.x
    ensures Quot(pos.x - min, max - min) == ProjectU(topLeft, topRight, pos)
  {
    InterceptsApart(topRight.y - topLeft.y, topRight.x - topLeft.x, pos.x, pos.y, topLeft.x, topLeft.y,
                    topRight.x, topRight.y, min, max);
    EdgeLength(topRight.Subtract(topLeft));
    EdgeCoordinates(topLeft, topRight, pos);
    CrossMultiplied(pos.x - min, max - min, topRight.x - topLeft.x,
                    topRight.Subtract(topLeft).Dot(topRight.Subtract(topLeft)),
                    (topRight.x - topLeft.x) * (topRight.x - topLeft.x) + (topRight.y - topLeft.y) * (topRight.y - topLeft.y),
                    pos.Subtract(topLeft).Dot(topRight.Subtract(topLeft)),
                    (pos.x - topLeft.x) * (topRight.x - topLeft.x) + (pos.y - topLeft.y) * (topRight.y - topLeft.y));
    assert topRight.Subtract(topLeft).x != 0.0;
    CrossQuotients(pos.x - min, max - min, pos.Subtract(topLeft).Dot(topRight.Subtract(topLeft)),
                   topRight.Subtract(topLeft).Dot(topRight.Subtract(topLeft)));
  }

  /** The two dot products of `ProjectU`, in coordinates. */
  lemma EdgeCoordinates(topLeft: Vector2D, topRight: Vector2D, pos: Vector2D)
    ensures topRight.Subtract(topLeft).Dot(topRight.Subtract(topLeft))
         == (topRight.x - topLeft.x) * (topRight.x - topLeft.x) + (topRight.y - topLeft.y) * (topRight.y - topLeft.y)
    ensures pos.Subtract(topLeft).Dot(topRight.Subtract(topLeft))
         == (pos.x - topLeft.x) * (topRight.x - topLeft.x) + (pos.y - topLeft.y) * (topRight.y - topLeft.y)
  {
  }

  /** Equal cross products give equal finite quotients. */
  lemma CrossQuotients(x1: real, y1: real, x2: real, y2: real)
    requires y1 != 0.0 && y2 != 0.0 && x1 * y2 == x2 * y1
    ensures Quot(x1, y1) == Quot(x2, y2)
  {
    assert (x1 / y1) * (y1 * y2) == (x2 / y2) * (y1 * y2);
    CancelFactor(x1 / y1, x2 / y2, y1 * y2);
  }

  /** Rewrites `num * norm == gap * dot` after replacing each side's factors by equal ones. */
  lemma CrossMultiplied(num: real, gap: real, d: real, norm: real, n: real, dot: real, q: real)
    requires num * n == d * q && gap == d && norm == n && dot == q
    ensures num * norm == dot * gap
  {
  }
}
