/**
 * `Warp3D.renderQuad`, the library's entry points: place a quad (rotate,
 * then translate), project it when it is three-dimensional, and render it
 * into the canvas. The answer is the sampler's kind, 4 for an untextured
 * quad, and -1 when a corner of a 3D quad cannot be projected.
 */
module Warp {
  import opened Wrappers
  import opened MathUtil
  import opened Vectors
  import opened Quaternions
  import opened Cameras
  import opened Quads2D
  import opened Quads3D

  /** The state of `Camera(width, height)`: at the origin, unrotated, with the default field of view. */
  function DefaultLens(width: Int32, height: Int32, m: Trig): (lens: Lens)
    ensures lens.position == ORIGIN && lens.rotation == IDENTITY
    ensures lens.width == width && lens.height == height && lens.tanFov == m.tan(DEFAULT_FOV)
  {
    Lens(ORIGIN, IDENTITY, m.tan(DEFAULT_FOV), width, height)
  }

  /** `renderQuad` for a screen quad: rotated by `radians`, moved by `position`, then rendered. */
  method RenderQuad2D(canvas: array2<Rgb>, quad: Quad2D, position: Vector2D, radians: real, m: Trig)
    returns (r: int)
    modifies canvas
    ensures quad.texture.None? ==> r == 4
    ensures quad.texture.Some? ==>
      var placed := quad.Rotate(radians, m).Translate(position);
      r == placed.Sampler().kind && Rendered(placed, canvas, old(Pixels(canvas)), m, false)
  {
    r := quad.Rotate(radians, m).Translate(position).Render(canvas, m, false);
  }

  /**
   * `renderQuad` for a world quad: rotated by `rotation`, moved by
   * `position`, projected through `camera` (a fresh canvas-sized camera
   * when there is none) and rendered. A given camera keeps its state apart
   * from its caches; when a corner cannot be projected the canvas is left
   * alone and the answer is -1. `lens` is the state of the camera used.
   */
  method RenderQuad3D(canvas: array2<Rgb>, quad: Quad3D, camera: Camera?, position: Vector3D,
                      rotation: Quaternion, m: Trig) returns (r: int, ghost lens: Lens)
    requires canvas.Length0 <= INT_MAX && canvas.Length1 <= INT_MAX
    requires camera != null ==> camera.Valid()
    modifies canvas, camera
    ensures camera != null ==> camera.Valid() && camera.CurrentLens() == old(camera.CurrentLens())
    ensures r == -1 || 0 <= r <= 4
    ensures lens == if camera == null then DefaultLens(canvas.Length0, canvas.Length1, m) else old(camera.CurrentLens())
    ensures RenderedThrough(quad.Rotate(rotation).Translate(position).ProjectThrough(lens), canvas,
                            old(Pixels(canvas)), m, r)
  {
    ghost var before := Pixels(canvas);
    var placed := quad.Rotate(rotation).Translate(position);
    var screen;
    screen, lens := ProjectWith(placed, camera, canvas.Length0, canvas.Length1, m);
    assert Pixels(canvas) == before;
    assert camera != null ==> camera.Valid() && camera.CurrentLens() == old(camera.CurrentLens());
    r := RenderScreen(canvas, screen, m);
    assert RenderedThrough(placed.ProjectThrough(lens), canvas, before, m, r);
  }

  /** The rendering step of `renderQuad`: -1 without a screen quad, otherwise `render`. */
  method RenderScreen(canvas: array2<Rgb>, screen: Option<Quad2D>, m: Trig) returns (r: int)
    modifies canvas
    ensures r == -1 || 0 <= r <= 4
    ensures RenderedThrough(screen, canvas, old(Pixels(canvas)), m, r)
  {
    if screen.None? {
      return -1;
    }
    RenderKindRange(screen.value);
    r := screen.value.Render(canvas, m, false);
  }

  /**
   * The projection step of `renderQuad`: through `camera`, or through
   * `Camera(width, height)` when there is none; `lens` is that camera's state.
   */
  method ProjectWith(placed: Quad3D, camera: Camera?, width: Int32, height: Int32, m: Trig)
    returns (screen: Option<Quad2D>, ghost lens: Lens)
    requires camera != null ==> camera.Valid()
    modifies camera
    ensures camera != null ==> camera.Valid() && camera.CurrentLens() == old(camera.CurrentLens())
    ensures lens == if camera == null then DefaultLens(width, height, m) else old(camera.CurrentLens())
    ensures screen == placed.ProjectThrough(lens)
  {
    if camera != null {
      lens := camera.CurrentLens();
      screen := placed.Project(camera);
    } else {
      var origin := new Vector3DRef(ORIGIN);
      var defaultCamera := new Camera(width, height, origin, IDENTITY, DEFAULT_FOV, m.tan);
      lens := defaultCamera.CurrentLens();
      screen := placed.Project(defaultCamera);
    }
  }

  /**
   * The canvas and the answer of `renderQuad` once the projection gave
   * `screen`, over the pixels `before`: unchanged and -1 without a screen
   * quad, otherwise what `render` does.
   */
  predicate RenderedThrough(screen: Option<Quad2D>, canvas: array2<Rgb>, before: seq<seq<Rgb>>, m: Trig, r: int)
    reads canvas
  {
    && (screen.None? ==> r == -1 && Pixels(canvas) == before)
    && (screen.Some? && screen.value.texture.None? ==> r == 4)
    && (screen.Some? && screen.value.texture.Some? ==>
          r == screen.value.Sampler().kind && Rendered(screen.value, canvas, before, m, false))
  }
}
