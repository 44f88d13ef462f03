/**
 * `Quad3D`: a quadrilateral in world space with the same surface data as a
 * `Quad2D` (texture coordinates, optional texture, tint). `translate` and
 * `rotate` build new quads; `project` sends the four corners through a
 * camera and gives up as soon as one of them is at or behind the camera.
 */
module Quads3D {
  import opened Wrappers
  import opened MathUtil
  import opened Vectors
  import opened Quaternions
  import opened Cameras
  import opened Quads2D

  datatype Quad3D = Quad3D(topLeft: Vector3D, topRight: Vector3D, bottomLeft: Vector3D, bottomRight: Vector3D,
                           uvTopLeft: Vector2D, uvTopRight: Vector2D, uvBottomLeft: Vector2D, uvBottomRight: Vector2D,
                           texture: Option<Image>, color: Color)
  {
    /** `translate`: every corner moved by `v`; the surface kept. */
    function Translate(v: Vector3D): (r: Quad3D)
      ensures r.topLeft.Subtract(v) == topLeft && r.topRight.Subtract(v) == topRight
      ensures r.bottomLeft.Subtract(v) == bottomLeft && r.bottomRight.Subtract(v) == bottomRight
      ensures r.SameSurface(this)
    {
      Quad3D(topLeft.Add(v), topRight.Add(v), bottomLeft.Add(v), bottomRight.Add(v),
             uvTopLeft, uvTopRight, uvBottomLeft, uvBottomRight, texture, color)
    }

    /** `rotate`: a copy when `rotation` is fuzzily IDENTITY, otherwise every corner rotated by it. */
    function Rotate(rotation: Quaternion): (r: Quad3D)
      ensures rotation.FuzzyEquals(IDENTITY) ==> r == this
      ensures !rotation.FuzzyEquals(IDENTITY) ==>
        && r.topLeft == rotation.MultVec(topLeft) && r.topRight == rotation.MultVec(topRight)
        && r.bottomLeft == rotation.MultVec(bottomLeft) && r.bottomRight == rotation.MultVec(bottomRight)
      ensures r.SameSurface(this)
    {
      if rotation.FuzzyEquals(IDENTITY) then this
      else
        Quad3D(rotation.MultVec(topLeft), rotation.MultVec(topRight),
               rotation.MultVec(bottomLeft), rotation.MultVec(bottomRight),
               uvTopLeft, uvTopRight, uvBottomLeft, uvBottomRight, texture, color)
    }

    /** Same texture coordinates, texture and colour. */
    predicate SameSurface(other: Quad3D)
    {
      && uvTopLeft == other.uvTopLeft && uvTopRight == other.uvTopRight
      && uvBottomLeft == other.uvBottomLeft && uvBottomRight == other.uvBottomRight
      && texture == other.texture && color == other.color
    }

    /** A screen quad carries this quad's texture coordinates, texture and colour. */
    predicate SurfaceOf(q: Quad2D)
    {
      && q.uvTopLeft == uvTopLeft && q.uvTopRight == uvTopRight
      && q.uvBottomLeft == uvBottomLeft && q.uvBottomRight == uvBottomRight
      && q.texture == texture && q.color == color
    }

    /**
     * What `project` answers for a camera whose state is `lens`: the screen
     * quad of the four projected corners with this surface, or `None` when
     * any corner has no projection.
     */
    function ProjectThrough(lens: Lens): (r: Option<Quad2D>)
      ensures r.Some? ==> SurfaceOf(r.value)
      ensures r.Some? ==>
        && ProjectPoint(lens, topLeft) == Some(r.value.topLeft)
        && ProjectPoint(lens, topRight) == Some(r.value.topRight)
        && ProjectPoint(lens, bottomLeft) == Some(r.value.bottomLeft)
        && ProjectPoint(lens, bottomRight) == Some(r.value.bottomRight)
    {
      var tl, tr := ProjectPoint(lens, topLeft), ProjectPoint(lens, topRight);
      var bl, br := ProjectPoint(lens, bottomLeft), ProjectPoint(lens, bottomRight);
      if tl.None? || tr.None? || bl.None? || br.None? then None
      else Some(Quad2D(tl.value, tr.value, bl.value, br.value,
                       uvTopLeft, uvTopRight, uvBottomLeft, uvBottomRight, texture, color))
    }

    /**
     * `project`: the corners go through `camera.project` in order, stopping
     * at the first that has no projection. The camera only fills its caches.
     */
    method Project(camera: Camera) returns (r: Option<Quad2D>)
      requires camera.Valid()
      modifies camera`computedInverseRotation, camera`inverseRotation, camera`shouldProcessRotation,
        camera`computedTanFov, camera`tanFov
      ensures camera.Valid() && camera.CurrentLens() == old(camera.CurrentLens())
      ensures r == ProjectThrough(old(camera.CurrentLens()))
    {
      var tl := camera.Project(topLeft);
      if tl.None? {
        return None;
      }
      var tr := camera.Project(topRight);
      if tr.None? {
        return None;
      }
      var bl := camera.Project(bottomLeft);
      if bl.None? {
        return None;
      }
      var br := camera.Project(bottomRight);
      if br.None? {
        return None;
      }
      r := Some(Quad2D(tl.value, tr.value, bl.value, br.value,
                       uvTopLeft, uvTopRight, uvBottomLeft, uvBottomRight, texture, color));
    }
  }

  // ---------------------------------------------------------------------
  // Properties

  /** Translating by `a` and then by `b` is translating by `a + b`. */
  lemma TranslateTwice(q: Quad3D, a: Vector3D, b: Vector3D)
    ensures q.Translate(a).Translate(b) == q.Translate(a.Add(b))
  {
    AddAssociative(q.topLeft, a, b);
    AddAssociative(q.topRight, a, b);
    AddAssociative(q.bottomLeft, a, b);
    AddAssociative(q.bottomRight, a, b);
  }

  /** The defaults of `renderQuad` (no rotation, no offset) leave the quad as it is. */
  lemma DefaultPlacement(q: Quad3D)
    ensures q.Rotate(IDENTITY).Translate(ORIGIN) == q
  {
    Quaternions.FuzzyEqualsReflexive(IDENTITY);
  }

  /** A projected quad exists exactly when no corner is at or behind the camera plane. */
  lemma ProjectThroughVisible(q: Quad3D, lens: Lens)
    ensures q.ProjectThrough(lens).Some? <==>
      && Relative(lens, q.topLeft).z > 0.0 && Relative(lens, q.topRight).z > 0.0
      && Relative(lens, q.bottomLeft).z > 0.0 && Relative(lens, q.bottomRight).z > 0.0
  {
    ProjectRejectsBehind(lens, q.topLeft);
    ProjectRejectsBehind(lens, q.topRight);
    ProjectRejectsBehind(lens, q.bottomLeft);
    ProjectRejectsBehind(lens, q.bottomRight);
  }

  /** Moving the quad and the camera by the same offset gives the same screen quad. */
  lemma ProjectThroughTranslation(q: Quad3D, lens: Lens, d: Vector3D)
    ensures q.Translate(d).ProjectThrough(lens.(position := lens.position.Add(d))) == q.ProjectThrough(lens)
  {
    ProjectTranslationInvariant(lens, q.topLeft, d);
    ProjectTranslationInvariant(lens, q.topRight, d);
    ProjectTranslationInvariant(lens, q.bottomLeft, d);
    ProjectTranslationInvariant(lens, q.bottomRight, d);
  }

  /** The quad stretched by `k` about the point `c`. */
  function ScaleAbout(q: Quad3D, c: Vector3D, k: real): Quad3D
  {
    q.(topLeft := c.Add(q.topLeft.Subtract(c).Scale(k)), topRight := c.Add(q.topRight.Subtract(c).Scale(k)),
       bottomLeft := c.Add(q.bottomLeft.Subtract(c).Scale(k)), bottomRight := c.Add(q.bottomRight.Subtract(c).Scale(k)))
  }

  /** Perspective: a quad stretched about the camera position by a positive factor covers the same screen quad. */
  lemma ProjectThroughAlongRay(q: Quad3D, lens: Lens, k: real)
    requires k > 0.0
    ensures ScaleAbout(q, lens.position, k).ProjectThrough(lens) == q.ProjectThrough(lens)
  {
    ProjectAlongRay(lens, q.topLeft, k);
    ProjectAlongRay(lens, q.topRight, k);
    ProjectAlongRay(lens, q.bottomLeft, k);
    ProjectAlongRay(lens, q.bottomRight, k);
  }
}
