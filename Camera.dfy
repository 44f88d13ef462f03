/**
 * `Camera`: a pinhole camera with mutable size, position, rotation and field
 * of view, two lazily recomputed caches (the inverse rotation and tan(fov))
 * and the letterbox geometry derived from the canvas size.
 *
 * What a camera projects depends only on its `Lens()` (position, rotation,
 * tan(fov), width, height); `ProjectPoint` is that projection as a function,
 * and `Valid()` says the caches never disagree with the fields they derive from.
 */
module Cameras {
  import opened Wrappers
  import opened MathUtil
  import opened Vectors
  import opened Quaternions

  /** The double nearest pi/4: the default field of view. */
  const DEFAULT_FOV: real := 0.7853981633974483

  /** `floorDiv(|width - height|, 2)`, the difference taken in 32-bit `Int` arithmetic. */
  function Padding(width: Int32, height: Int32): int
  {
    Wrap32(Max(width, height) - Min(width, height)) / 2
  }

  /** What a projection depends on. */
  datatype Lens = Lens(position: Vector3D, rotation: Quaternion, tanFov: real, width: Int32, height: Int32)

  /** The point in camera space: relative to the position, then rotated unless the inverse rotation is fuzzily IDENTITY. */
  function Relative(lens: Lens, point: Vector3D): Vector3D
  {
    var relative := point.Subtract(lens.position);
    var inv := lens.rotation.Inverse();
    if !inv.FuzzyEquals(IDENTITY) then inv.MultVec(relative) else relative
  }

  /**
   * `project`: no result at or behind the camera plane; otherwise the
   * perspective divide, scaled to a max(width, height) square and shifted by
   * the letterbox padding along the shorter axis.
   */
  function ProjectPoint(lens: Lens, point: Vector3D): (r: Option<Vector2D>)
  {
    var relative := Relative(lens, point);
    if relative.z <= 0.0 then None
    else Some(ToScreen(relative, lens.tanFov, lens.width, lens.height))
  }

  /** Perspective divide of a camera-space point in front of the camera, then the letterbox. */
  function ToScreen(relative: Vector3D, tanFov: real, width: Int32, height: Int32): Vector2D
  {
    Letterbox(PerspectiveDivide(relative, tanFov), width, height)
  }

  /** Normalised device coordinates: x and y over z * tan(fov). */
  function PerspectiveDivide(relative: Vector3D, tanFov: real): Vector2D
  {
    var product := Div(1.0, relative.z * tanFov);
    Vector2D(relative.x * product, relative.y * product)
  }

  /** Maps normalised coordinates onto a max(width, height) square, then shifts along the shorter axis. */
  function Letterbox(pc: Vector2D, width: Int32, height: Int32): Vector2D
  {
    var half := Max(width, height) as real / 2.0;
    var screenX := ScreenCoord(pc.x, half);
    var screenY := ScreenCoord(pc.y, half);
    var padding := Padding(width, height) as real;
    if width > height then Vector2D(screenX, screenY - padding)
    else Vector2D(screenX - padding, screenY)
  }

  /** A perspective-divided coordinate in [-1, 1] mapped onto [0, 2 * half]. */
  function ScreenCoord(pc: real, half: real): real
  {
    pc * half + half
  }

  class Camera {
    var width: Int32
    var height: Int32
    var widthLarger: bool
    var padding: int
    var maxDimension: int
    var halfMaxDimension: real

    /** Owned vector, updated in place by `SetPosition`. */
    const position: Vector3DRef
    var rotation: Quaternion
    var fov: real
    var computedInverseRotation: bool
    var computedTanFov: bool
    var shouldProcessRotation: bool
    var inverseRotation: Quaternion
    var tanFov: real

    /** The host's `tan`. */
    const tan: real -> real

    /** The letterbox fields agree with the size. */
    ghost predicate SizeValid()
      reads this`width, this`height, this`widthLarger, this`maxDimension, this`halfMaxDimension, this`padding
    {
      && widthLarger == (width > height)
      && maxDimension == Max(width, height)
      && halfMaxDimension == maxDimension as real / 2.0
      && padding == Padding(width, height)
    }

    /** A cache whose flag is set holds the value derived from the current field. */
    ghost predicate CachesValid()
      reads this`rotation, this`computedInverseRotation, this`inverseRotation, this`shouldProcessRotation,
        this`computedTanFov, this`tanFov, this`fov
    {
      && (computedInverseRotation ==>
            inverseRotation == rotation.Inverse() &&
            shouldProcessRotation == !inverseRotation.FuzzyEquals(IDENTITY))
      && (computedTanFov ==> tanFov == tan(fov))
    }

    ghost predicate Valid()
      reads this
    {
      SizeValid() && CachesValid()
    }

    function CurrentLens(): Lens
      reads this, position
    {
      Lens(position.Value(), rotation, tan(fov), width, height)
    }

    constructor (width: Int32, height: Int32, position: Vector3DRef, rotation: Quaternion, fov: real, tan: real -> real)
      ensures Valid()
      ensures this.position == position
      ensures this.width == width && this.height == height
      ensures this.rotation == rotation && this.fov == fov && this.tan == tan
      ensures CurrentLens() == Lens(position.Value(), rotation, tan(fov), width, height)
      ensures !computedInverseRotation && !computedTanFov
    {
      this.position := position;
      this.rotation := rotation;
      this.fov := fov;
      this.tan := tan;
      computedInverseRotation := false;
      computedTanFov := false;
      shouldProcessRotation := false;
      inverseRotation := IDENTITY;
      tanFov := 0.0;
      new;
      SetSize(width, height);
    }

    method SetSize(width: Int32, height: Int32)
      requires CachesValid()
      modifies this`width, this`height, this`widthLarger, this`padding, this`maxDimension, this`halfMaxDimension
      ensures Valid()
      ensures this.width == width && this.height == height
      ensures widthLarger == (width > height)
      ensures maxDimension == Max(width, height)
      ensures halfMaxDimension == Max(width, height) as real / 2.0
    {
      PaddingCases(width, height);
      this.width := width;
      this.height := height;
      if width > height {
        padding := Wrap32(width - height) / 2;
        widthLarger := true;
        maxDimension := width;
        halfMaxDimension := width as real / 2.0;
        return;
      } else if width < height {
        padding := Wrap32(height - width) / 2;
      } else {
        padding := 0;
      }
      widthLarger := false;
      maxDimension := height;
      halfMaxDimension := height as real / 2.0;
    }

    method SetWidth(width: Int32)
      requires Valid()
      modifies this`width, this`height, this`widthLarger, this`padding, this`maxDimension, this`halfMaxDimension
      ensures Valid()
      ensures this.width == width && height == old(height)
    {
      SetSize(width, this.height);
    }

    method SetHeight(height: Int32)
      requires Valid()
      modifies this`width, this`height, this`widthLarger, this`padding, this`maxDimension, this`halfMaxDimension
      ensures Valid()
      ensures this.height == height && width == old(width)
    {
      SetSize(this.width, height);
    }

    /** Copies the components of `pos` into the owned position vector. */
    method SetPosition(pos: Vector3DRef)
      requires Valid()
      modifies position
      ensures Valid()
      ensures position.Value() == old(pos.Value())
      ensures pos.Value() == old(pos.Value())
    {
      position.Apply(pos);
    }

    /** A fresh copy, so changing it cannot change the camera. */
    method GetPosition() returns (r: Vector3DRef)
      ensures fresh(r) && r.Value() == position.Value()
    {
      r := position.Copy();
    }

    method SetRotation(rot: Quaternion)
      requires Valid()
      modifies this`rotation, this`computedInverseRotation
      ensures Valid()
      ensures old(rotation).FuzzyEquals(rot) ==>
        rotation == old(rotation) && computedInverseRotation == old(computedInverseRotation)
      ensures !old(rotation).FuzzyEquals(rot) ==> rotation == rot && !computedInverseRotation
    {
      if rotation.FuzzyEquals(rot) {
        return;
      }
      rotation := rot;
      computedInverseRotation := false;
    }

    method SetFOV(fov: real)
      requires Valid()
      modifies this`fov, this`computedTanFov
      ensures Valid()
      ensures FuzzyEquals(old(this.fov), fov) ==>
        this.fov == old(this.fov) && computedTanFov == old(computedTanFov)
      ensures !FuzzyEquals(old(this.fov), fov) ==> this.fov == fov && !computedTanFov
    {
      if FuzzyEquals(this.fov, fov) {
        return;
      }
      this.fov := fov;
      computedTanFov := false;
    }

    method GetInverseRotation() returns (inv: Quaternion)
      requires Valid()
      modifies this`computedInverseRotation, this`inverseRotation, this`shouldProcessRotation
      ensures Valid()
      ensures computedInverseRotation
      ensures inv == inverseRotation == rotation.Inverse()
      ensures shouldProcessRotation == !inv.FuzzyEquals(IDENTITY)
    {
      if !computedInverseRotation {
        inverseRotation := rotation.Inverse();
        shouldProcessRotation := !inverseRotation.FuzzyEquals(IDENTITY);
        computedInverseRotation := true;
      }
      inv := inverseRotation;
    }

    method GetTanFov() returns (t: real)
      requires Valid()
      modifies this`computedTanFov, this`tanFov
      ensures Valid()
      ensures computedTanFov && t == tanFov == tan(fov)
    {
      if !computedTanFov {
        tanFov := tan(fov);
        computedTanFov := true;
      }
      t := tanFov;
    }

    /** `project`, through the caches; equal to `ProjectPoint` of the lens. */
    method Project(point: Vector3D) returns (r: Option<Vector2D>)
      requires Valid()
      modifies this`computedInverseRotation, this`inverseRotation, this`shouldProcessRotation,
        this`computedTanFov, this`tanFov
      ensures Valid() && CurrentLens() == old(CurrentLens())
      ensures r == ProjectPoint(CurrentLens(), point)
    {
      var relative := point.Subtract(position.Value());
      var invRot := GetInverseRotation();
      if shouldProcessRotation {
        relative := invRot.MultVec(relative);
      }
      assert relative == Relative(CurrentLens(), point);
      if relative.z <= 0.0 {
        return None;
      }
      var tanFov := GetTanFov();
      var screen := Screen(relative, tanFov);
      r := Some(screen);
    }

    /** The second half of `project`: the perspective divide and the letterbox offset. */
    method Screen(relative: Vector3D, tanFov: real) returns (s: Vector2D)
      requires SizeValid()
      ensures s == ToScreen(relative, tanFov, width, height)
    {
      var pc := PerspectiveDivide(relative, tanFov);
      var screenX := ScreenCoord(pc.x, halfMaxDimension);
      var screenY := ScreenCoord(pc.y, halfMaxDimension);
      if widthLarger {
        s := Vector2D(screenX, screenY - padding as real);
      } else {
        s := Vector2D(screenX - padding as real, screenY);
      }
    }
  }

  // ---------------------------------------------------------------------
  // Properties of the projection

  /** Non-negative sizes never wrap: the padding is half the size difference, rounded down. */
  lemma PaddingOfCanvas(width: Int32, height: Int32)
    requires 0 <= width && 0 <= height
    ensures Padding(width, height) == (Max(width, height) - Min(width, height)) / 2
    ensures 2 * Padding(width, height) <= Max(width, height) - Min(width, height) <= 2 * Padding(width, height) + 1
  {
  }

  /** The padding on each branch of `setSize`. */
  lemma PaddingCases(width: Int32, height: Int32)
    ensures width > height ==> Padding(width, height) == Wrap32(width - height) / 2
    ensures width < height ==> Padding(width, height) == Wrap32(height - width) / 2
    ensures width == height ==> Padding(width, height) == 0
  {
  }

  lemma ProjectRejectsBehind(lens: Lens, point: Vector3D)
    ensures ProjectPoint(lens, point).None? <==> Relative(lens, point).z <= 0.0
  {
  }

  /**
   * On a square canvas, with the camera at the origin and no rotation to
   * apply, a point on the optical axis lands on the centre pixel.
   */
  lemma ProjectOpticalAxisSquare(lens: Lens, z: real)
    requires lens.position == ORIGIN
    requires lens.rotation.Inverse().FuzzyEquals(IDENTITY)
    requires lens.width == lens.height
    requires z > 0.0
    ensures ProjectPoint(lens, Vector3D(0.0, 0.0, z)) ==
      Some(Vector2D(lens.width as real / 2.0, lens.height as real / 2.0))
  {
    assert Relative(lens, Vector3D(0.0, 0.0, z)) == Vector3D(0.0, 0.0, z);
  }

  /**
   * The letterbox centres the image: on any canvas the optical axis lands
   * on the centre, or half a pixel past it when the size difference is odd.
   */
  lemma {:induction false} ProjectOpticalAxisCentred(lens: Lens, z: real)
    requires lens.position == ORIGIN
    requires lens.rotation.Inverse().FuzzyEquals(IDENTITY)
    requires 0 <= lens.width && 0 <= lens.height
    requires z > 0.0
    ensures ProjectPoint(lens, Vector3D(0.0, 0.0, z)).Some?
    ensures var c := ProjectPoint(lens, Vector3D(0.0, 0.0, z)).value;
      var dx := c.x - lens.width as real / 2.0;
      var dy := c.y - lens.height as real / 2.0;
      0.0 <= dx <= 0.5 && 0.0 <= dy <= 0.5 &&
      ((lens.width - lens.height) % 2 == 0 ==> dx == 0.0 && dy == 0.0)
  {
    var axis := Vector3D(0.0, 0.0, z);
    assert Relative(lens, axis) == axis;
    assert PerspectiveDivide(axis, lens.tanFov) == Vector2D(0.0, 0.0);
    LetterboxCentred(lens.width, lens.height);
  }

  /** The letterbox puts the centre of the normalised square at the canvas centre, or half a pixel past it. */
  lemma {:induction false} LetterboxCentred(w: Int32, h: Int32)
    requires 0 <= w && 0 <= h
    ensures var c := Letterbox(Vector2D(0.0, 0.0), w, h);
      var dx := c.x - w as real / 2.0;
      var dy := c.y - h as real / 2.0;
      0.0 <= dx <= 0.5 && 0.0 <= dy <= 0.5 &&
      ((w - h) % 2 == 0 ==> dx == 0.0 && dy == 0.0)
  {
    PaddingOfCanvas(w, h);
    var p := Padding(w, h);
    var half := Max(w, h) as real / 2.0;
    assert ScreenCoord(0.0, half) == half;
    var gap := Max(w, h) - Min(w, h);
    assert 2 * p <= gap <= 2 * p + 1;
    assert gap % 2 == 0 ==> gap == 2 * p;
    if w > h {
      assert Letterbox(Vector2D(0.0, 0.0), w, h) == Vector2D(half, half - p as real);
      assert (half - p as real) - h as real / 2.0 == gap as real / 2.0 - p as real;
    } else {
      assert Letterbox(Vector2D(0.0, 0.0), w, h) == Vector2D(half - p as real, half);
      assert (half - p as real) - w as real / 2.0 == gap as real / 2.0 - p as real;
    }
  }

  /** Moving the camera and the point by the same offset changes nothing. */
  lemma {:induction false} ProjectTranslationInvariant(lens: Lens, point: Vector3D, d: Vector3D)
    ensures ProjectPoint(lens.(position := lens.position.Add(d)), point.Add(d)) == ProjectPoint(lens, point)
  {
    var moved := lens.(position := lens.position.Add(d));
    assert point.Add(d).Subtract(moved.position) == point.Subtract(lens.position);
    assert Relative(moved, point.Add(d)) == Relative(lens, point);
  }

  /** Perspective: every point on a ray from the camera lands on the same pixel. */
  lemma {:induction false} ProjectAlongRay(lens: Lens, point: Vector3D, k: real)
    requires k > 0.0
    ensures ProjectPoint(lens, lens.position.Add(point.Subtract(lens.position).Scale(k))) ==
      ProjectPoint(lens, point)
  {
    RelativeAlongRay(lens, point, k);
    var a := Relative(lens, point);
    if a.z > 0.0 {
      ToScreenScale(a, lens.tanFov, lens.width, lens.height, k);
    }
  }

  lemma {:induction false} RelativeAlongRay(lens: Lens, point: Vector3D, k: real)
    ensures Relative(lens, lens.position.Add(point.Subtract(lens.position).Scale(k))) ==
      Relative(lens, point).Scale(k)
  {
    var rel := point.Subtract(lens.position);
    assert lens.position.Add(rel.Scale(k)).Subtract(lens.position) == rel.Scale(k);
    MultVecScale(lens.rotation.Inverse(), rel, k);
  }

  lemma ToScreenScale(a: Vector3D, t: real, width: Int32, height: Int32, k: real)
    requires k > 0.0 && a.z > 0.0
    ensures ToScreen(a.Scale(k), t, width, height) == ToScreen(a, t, width, height)
  {
    RayScale(a.x, a.z, t, k);
    RayScale(a.y, a.z, t, k);
    assert PerspectiveDivide(a.Scale(k), t) == PerspectiveDivide(a, t);
  }

  lemma RayScale(c: real, z: real, t: real, k: real)
    requires k > 0.0 && z > 0.0
    ensures (k * c) * Div(1.0, (k * z) * t) == c * Div(1.0, z * t)
  {
    if t != 0.0 {
      assert (k * z) * t == k * (z * t);
      assert Div(1.0, (k * z) * t) == Div(1.0, z * t) / k;
    }
  }
}
