/**
 * `Quad2D`: a screen quadrilateral with texture coordinates at its corners,
 * an optional texture and a tint colour. `translate` and `rotate` build new
 * quads; `render` rasterises the quad into a canvas and answers the
 * sampler's kind (4 when there is no texture).
 *
 * A pixel is the 32-bit ARGB word read as an unsigned number (alpha in the
 * top byte, then red, green, blue); a canvas is an `array2` indexed [x, y].
 */
module Quads2D {
  import opened Wrappers
  import opened MathUtil
  import opened Vectors
  import opened Sampling

  /** A packed ARGB word, read as an unsigned 32-bit number. */
  type Rgb = x: int | 0 <= x < 0x1_0000_0000

  /** One byte of a pixel. */
  type Channel = c: int | 0 <= c <= 255

  /** `java.awt.Color`, without the alpha that rendering never reads. */
  datatype Color = Color(red: Channel, green: Channel, blue: Channel)

  const WHITE: Color := Color(255, 255, 255)

  /** A texture image: `columns[x][y]` is the pixel at (x, y). */
  datatype Texture = Texture(columns: seq<seq<Rgb>>)
  {
    /** At least 1x1, as every image is, and rectangular. */
    predicate Valid()
    {
      && 1 <= |columns| <= INT_MAX
      && 1 <= |columns[0]| <= INT_MAX
      && forall x :: 0 <= x < |columns| ==> |columns[x]| == |columns[0]|
    }

    function Width(): int
      requires Valid()
    {
      |columns|
    }

    function Height(): int
      requires Valid()
    {
      |columns[0]|
    }

    /** `getRGB`: defined only inside the image. */
    function GetRGB(x: int, y: int): Rgb
      requires Valid() && 0 <= x < Width() && 0 <= y < Height()
    {
      columns[x][y]
    }
  }

  type Image = t: Texture | t.Valid() witness Texture([[0]])

  // ---------------------------------------------------------------------
  // Pixels

  /** `(rgb shr 24) and 0xFF`. */
  function Alpha(rgb: Rgb): Channel
  {
    rgb / 0x100_0000
  }

  /** `(rgb shr 16) and 0xFF`. */
  function Red(rgb: Rgb): Channel
  {
    (rgb / 0x1_0000) % 0x100
  }

  /** `(rgb shr 8) and 0xFF`. */
  function Green(rgb: Rgb): Channel
  {
    (rgb / 0x100) % 0x100
  }

  /** `rgb and 0xFF`. */
  function Blue(rgb: Rgb): Channel
  {
    rgb % 0x100
  }

  /** `(alpha shl 24) or (red shl 16) or (green shl 8) or blue`: the fields are disjoint, so the or is a sum. */
  function Pack(alpha: Channel, red: Channel, green: Channel, blue: Channel): Rgb
  {
    alpha * 0x100_0000 + red * 0x1_0000 + green * 0x100 + blue
  }

  /** Packing and unpacking are inverse. */
  lemma PackUnpack(alpha: Channel, red: Channel, green: Channel, blue: Channel)
    ensures var rgb := Pack(alpha, red, green, blue);
      Alpha(rgb) == alpha && Red(rgb) == red && Green(rgb) == green && Blue(rgb) == blue
  {
    var rgb := Pack(alpha, red, green, blue);
    DivPlus(rgb, 0x100, alpha * 0x1_0000 + red * 0x100 + green, blue);
    DivPlus(rgb, 0x1_0000, alpha * 0x100 + red, green * 0x100 + blue);
    DivPlus(rgb, 0x100_0000, alpha, red * 0x1_0000 + green * 0x100 + blue);
    DivPlus(alpha * 0x1_0000 + red * 0x100 + green, 0x100, alpha * 0x100 + red, green);
    DivPlus(alpha * 0x100 + red, 0x100, alpha, red);
  }

  lemma UnpackPack(rgb: Rgb)
    ensures Pack(Alpha(rgb), Red(rgb), Green(rgb), Blue(rgb)) == rgb
  {
    var lo := rgb / 0x100;
    var mid := lo / 0x100;
    assert rgb == lo * 0x100 + Blue(rgb);
    assert lo == mid * 0x100 + Green(rgb);
    ShiftTwice(rgb);
    assert mid == (mid / 0x100) * 0x100 + Red(rgb);
  }

  /** `n / d == q` and `n % d == r` when `n = q d + r` with `0 <= r < d`. */
  lemma DivPlus(n: int, d: int, q: int, r: int)
    requires 0 < d && 0 <= r < d && n == q * d + r
    ensures n / d == q && n % d == r
  {
    var q2, r2 := n / d, n % d;
    assert (q - q2) * d == r2 - r;
    if q > q2 {
      MulAtLeast(q - q2, d);
    } else if q < q2 {
      MulAtLeast(q2 - q, d);
    }
  }

  lemma MulAtLeast(k: int, d: int)
    requires 1 <= k && 0 < d
    ensures k * d >= d
  {
    assert k * d == (k - 1) * d + d;
    assert (k - 1) * d >= 0;
  }

  /** Shifting right by one byte after two or three bytes is shifting by three or four. */
  lemma ShiftTwice(n: nat)
    ensures n / 0x100 / 0x100 == n / 0x1_0000
    ensures n / 0x1_0000 / 0x100 == n / 0x100_0000
  {
    var m := n / 0x100;
    assert n == m * 0x100 + n % 0x100;
    assert m == m / 0x100 * 0x100 + m % 0x100;
    DivPlus(n, 0x1_0000, m / 0x100, m % 0x100 * 0x100 + n % 0x100);
    var h := n / 0x1_0000;
    assert n == h * 0x1_0000 + n % 0x1_0000;
    assert h == h / 0x100 * 0x100 + h % 0x100;
    DivPlus(n, 0x100_0000, h / 0x100, h % 0x100 * 0x1_0000 + n % 0x1_0000);
  }

  /** One tinted channel: the texel byte times `tint / 255`, truncated to an `Int`. */
  function TintChannel(c: Channel, tint: Channel): int
  {
    ToInt(Tinted(c, tint))
  }

  /** The unconverted product `c * (tint / 255)`: never negative and never above the texel byte. */
  function Tinted(c: Channel, tint: Channel): (r: real)
    ensures 0.0 <= r <= c as real
  {
    ScaleDown(c, tint);
    c as real * (tint as real / 255.0)
  }

  /** A tinted channel is a byte no larger than the texel's, its truncated product with `tint / 255`. */
  lemma TintChannelRange(c: Channel, tint: Channel)
    ensures 0 <= TintChannel(c, tint) <= c
    ensures TintChannel(c, tint) == Trunc(Tinted(c, tint))
  {
    TruncByte(Tinted(c, tint), c);
  }

  /** A real in [0, c] for a byte `c` converts to its truncation, which lies in 0..c. */
  lemma TruncByte(x: real, c: int)
    requires 0.0 <= x <= c as real && c <= 255
    ensures 0 <= ToInt(x) <= c && ToInt(x) == Trunc(x)
  {
    TruncTowardZero(x);
  }

  lemma ScaleDown(c: Channel, tint: Channel)
    ensures 0.0 <= c as real * (tint as real / 255.0) <= c as real
  {
    assert 0.0 <= c as real * (1.0 - tint as real / 255.0);
  }

  /** `x and 0xFF`: the low byte; a byte is its own low byte. */
  function LowByte(x: int): (r: Channel)
    ensures 0 <= x <= 255 ==> r == x
  {
    x % 0x100
  }

  /** The pixel `render` writes for texel `rgb`: opaque, each channel tinted and masked to a byte. */
  function Shade(rgb: Rgb, tint: Color): Rgb
  {
    Pack(0xFF,
         LowByte(TintChannel(Red(rgb), tint.red)),
         LowByte(TintChannel(Green(rgb), tint.green)),
         LowByte(TintChannel(Blue(rgb), tint.blue)))
  }

  /** A written pixel is opaque and each channel is the truncated tinted texel channel. */
  lemma ShadeChannels(rgb: Rgb, tint: Color)
    ensures var s := Shade(rgb, tint);
      && Alpha(s) == 0xFF
      && Red(s) == Trunc(Tinted(Red(rgb), tint.red))
      && Green(s) == Trunc(Tinted(Green(rgb), tint.green))
      && Blue(s) == Trunc(Tinted(Blue(rgb), tint.blue))
  {
    TintChannelRange(Red(rgb), tint.red);
    TintChannelRange(Green(rgb), tint.green);
    TintChannelRange(Blue(rgb), tint.blue);
    PackUnpack(0xFF, LowByte(TintChannel(Red(rgb), tint.red)), LowByte(TintChannel(Green(rgb), tint.green)),
               LowByte(TintChannel(Blue(rgb), tint.blue)));
  }

  /** A white tint keeps the texel's colour and makes it opaque; an opaque texel is written unchanged. */
  lemma ShadeWhite(rgb: Rgb)
    ensures Shade(rgb, WHITE) == Pack(0xFF, Red(rgb), Green(rgb), Blue(rgb))
    ensures Alpha(rgb) == 0xFF ==> Shade(rgb, WHITE) == rgb
  {
    WhiteChannel(Red(rgb));
    WhiteChannel(Green(rgb));
    WhiteChannel(Blue(rgb));
    UnpackPack(rgb);
  }

  lemma WhiteChannel(c: Channel)
    ensures TintChannel(c, 255) == c
  {
    assert c as real * (255 as real / 255.0) == c as real;
    assert (c as real).Floor == c;
  }

  // ---------------------------------------------------------------------
  // Texel lookup and the scanned rectangle

  /** `min(floor(c * size).toInt(), size - 1)`: the texel holding texture coordinate `c`. */
  function TexelIndex(c: real, size: int): (i: int)
    requires InUnit(c) && 1 <= size <= INT_MAX
    ensures 0 <= i < size
  {
    assert c * size as real >= 0.0 by {
      ScaleUp(c, size as real);
    }
    Min(ToInt((c * size as real).Floor as real), size - 1)
  }

  lemma ScaleUp(c: real, s: real)
    requires 0.0 <= c && 0.0 <= s
    ensures 0.0 <= c * s
  {
  }

  /** Below 1 the index is the texel whose span holds `c * size`; at 1 it is the last texel. */
  lemma TexelIndexCovers(c: real, size: int)
    requires InUnit(c) && 1 <= size <= INT_MAX
    ensures c < 1.0 ==> TexelIndex(c, size) as real <= c * size as real < TexelIndex(c, size) as real + 1.0
    ensures c == 1.0 ==> TexelIndex(c, size) == size - 1
  {
    ScaleUp(c, size as real);
    if c < 1.0 {
      FloorBelow(c, size);
    } else {
      assert c * size as real == size as real;
      assert ((c * size as real).Floor as real).Floor == size;
    }
  }

  lemma BelowSize(c: real, s: real)
    requires 0.0 <= c < 1.0 && 0.0 < s
    ensures c * s < s
  {
    assert s - c * s == (1.0 - c) * s;
  }

  /** For `0 <= c < 1`, the floor of `c * size` is a texel index, and truncating it changes nothing. */
  lemma FloorBelow(c: real, size: int)
    requires 0.0 <= c < 1.0 && 1 <= size <= INT_MAX
    ensures 0 <= (c * size as real).Floor < size
    ensures ToInt((c * size as real).Floor as real) == (c * size as real).Floor
  {
    FloorInRange(c, size);
    WholeTrunc((c * size as real).Floor, size);
  }

  lemma FloorInRange(c: real, size: int)
    requires 0.0 <= c < 1.0 && 1 <= size
    ensures 0 <= (c * size as real).Floor < size
  {
    BelowSize(c, size as real);
    ScaleUp(c, size as real);
  }

  /** A whole number that fits in an `Int` converts to itself. */
  lemma WholeTrunc(f: int, size: int)
    requires 0 <= f < size <= INT_MAX
    ensures ToInt(f as real) == f
  {
    assert (f as real).Floor == f;
  }

  /** The pixel rectangle `render` scans. */
  datatype Box = Box(minX: int, minY: int, maxX: int, maxY: int)
  {
    predicate Contains(x: int, y: int)
    {
      minX <= x <= maxX && minY <= y <= maxY
    }
  }

  // ---------------------------------------------------------------------
  // The quad

  datatype Quad2D = Quad2D(topLeft: Vector2D, topRight: Vector2D, bottomLeft: Vector2D, bottomRight: Vector2D,
                           uvTopLeft: Vector2D, uvTopRight: Vector2D, uvBottomLeft: Vector2D, uvBottomRight: Vector2D,
                           texture: Option<Image>, color: Color)
  {
    /** The texture corners map the unit square onto the whole texture. */
    predicate DefaultUV()
    {
      && uvTopLeft == Vector2D(0.0, 0.0) && uvTopRight == Vector2D(1.0, 0.0)
      && uvBottomLeft == Vector2D(0.0, 1.0) && uvBottomRight == Vector2D(1.0, 1.0)
    }

    /**
     * `transformUV`: the sampled (U, V) interpolated between the texture
     * corners, first along the top and bottom edges by U, then between them
     * by V; `None` for no sample or a result outside [0,1]^2.
     */
    function TransformUV(uv: Option<Vector2D>): (r: Option<Vector2D>)
      ensures r.Some? ==> uv.Some? && InUnit(r.value.x) && InUnit(r.value.y)
    {
      if uv.None? then None
      else
        var a := uvTopLeft.Lerp(uvTopRight, uv.value.x);
        var b := uvBottomLeft.Lerp(uvBottomRight, uv.value.x);
        var ret := a.Lerp(b, uv.value.y);
        if !InUnit(ret.x) then None
        else if !InUnit(ret.y) then None
        else Some(ret)
    }

    /** `translate`: every corner moved by `v`; texture coordinates, texture and colour kept. */
    function Translate(v: Vector2D): (r: Quad2D)
      ensures r.topLeft.Subtract(v) == topLeft && r.topRight.Subtract(v) == topRight
      ensures r.bottomLeft.Subtract(v) == bottomLeft && r.bottomRight.Subtract(v) == bottomRight
      ensures r.SameSurface(this)
    {
      Quad2D(topLeft.Add(v), topRight.Add(v), bottomLeft.Add(v), bottomRight.Add(v),
             uvTopLeft, uvTopRight, uvBottomLeft, uvBottomRight, texture, color)
    }

    /** `rotate`: every corner rotated about the origin; a copy for an angle below ZERO_TOLERANCE. */
    function Rotate(radians: real, m: Trig): (r: Quad2D)
      ensures Abs(radians) < ZERO_TOLERANCE ==> r == this
      ensures Abs(radians) >= ZERO_TOLERANCE ==>
        && r.topLeft == topLeft.Rotate(radians, m) && r.topRight == topRight.Rotate(radians, m)
        && r.bottomLeft == bottomLeft.Rotate(radians, m) && r.bottomRight == bottomRight.Rotate(radians, m)
      ensures r.SameSurface(this)
    {
      if Abs(radians) < ZERO_TOLERANCE then this
      else
        Quad2D(topLeft.Rotate(radians, m), topRight.Rotate(radians, m),
               bottomLeft.Rotate(radians, m), bottomRight.Rotate(radians, m),
               uvTopLeft, uvTopRight, uvBottomLeft, uvBottomRight, texture, color)
    }

    /** Same texture coordinates, texture and colour. */
    predicate SameSurface(other: Quad2D)
    {
      && uvTopLeft == other.uvTopLeft && uvTopRight == other.uvTopRight
      && uvBottomLeft == other.uvBottomLeft && uvBottomRight == other.uvBottomRight
      && texture == other.texture && color == other.color
    }

    /** The corners' truncated extent, clamped to a `width` x `height` canvas. */
    function ScanBox(width: int, height: int): (b: Box)
      ensures 0 <= b.minX && b.maxX <= width - 1
      ensures 0 <= b.minY && b.maxY <= height - 1
    {
      var maxWidth := width - 1;
      var maxHeight := height - 1;
      var x0, x1, x2, x3 := ToInt(topLeft.x), ToInt(topRight.x), ToInt(bottomLeft.x), ToInt(bottomRight.x);
      var y0, y1, y2, y3 := ToInt(topLeft.y), ToInt(topRight.y), ToInt(bottomLeft.y), ToInt(bottomRight.y);
      Box(Max(Min(maxWidth, Min(Min(x0, x1), Min(x2, x3))), 0),
          Max(Min(maxHeight, Min(Min(y0, y1), Min(y2, y3))), 0),
          Min(Max(0, Max(Max(x0, x1), Max(x2, x3))), maxWidth),
          Min(Max(0, Max(Max(y0, y1), Max(y2, y3))), maxHeight))
    }

    /** The sampler `render` builds. */
    function Sampler(): UVSampler
    {
      NewSampler(topLeft, topRight, bottomLeft, bottomRight)
    }

    /**
     * What `render` writes at pixel (x, y) of a textured quad, or `None` when
     * the sample misses; `corrected` selects the sampler with the corrected U
     * of kinds 0 and 4 instead of the one as written.
     */
    function PixelAt(x: int, y: int, m: Trig, corrected: bool): Option<Rgb>
      requires texture.Some?
    {
      var uv := TransformUV(Sampler().Sample(Vector2D(x as real, y as real), m, corrected));
      if uv.None? then None
      else
        var tex := texture.value;
        Some(Shade(tex.GetRGB(TexelIndex(uv.value.x, tex.Width()), TexelIndex(uv.value.y, tex.Height())), color))
    }

    /** The pixel at (x, y) once `render` has passed it: the shaded texel on a hit, else `before`. */
    function Painted(x: int, y: int, before: Rgb, m: Trig, corrected: bool): Rgb
      requires texture.Some?
    {
      var p := PixelAt(x, y, m, corrected);
      if p.Some? then p.value else before
    }

    /**
     * `render`. With a texture: every pixel of the scanned rectangle where
     * the sample hits gets the tinted texel, every other pixel keeps its
     * value, and the answer is the sampler's kind. Without one the source
     * fills the polygon through the host's graphics, which is not modelled,
     * and answers 4. The program's `render` is `corrected == false`.
     */
    method Render(canvas: array2<Rgb>, m: Trig, corrected: bool) returns (kind: int)
      modifies canvas
      ensures texture.None? ==> kind == 4
      ensures texture.Some? ==> kind == Sampler().kind && Rendered(this, canvas, old(Pixels(canvas)), m, corrected)
    {
      if texture.None? {
        return 4;
      }
      PaintBox(canvas, ScanBox(canvas.Length0, canvas.Length1), m, corrected);
      kind := Sampler().kind;
    }

    /** The scan of `render` over the rows and columns of `box`, a rectangle inside the canvas. */
    method PaintBox(canvas: array2<Rgb>, box: Box, m: Trig, corrected: bool)
      requires texture.Some?
      requires 0 <= box.minX && box.maxX < canvas.Length0 && 0 <= box.minY && box.maxY < canvas.Length1
      modifies canvas
      ensures PaintedIn(this, canvas, box, old(Pixels(canvas)), m, corrected)
    {
      var y := box.minY;
      while y <= box.maxY
        invariant box.minY <= y <= Max(box.minY, box.maxY + 1)
        invariant forall i, j :: box.minX <= i <= box.maxX && box.minY <= j < y ==>
          canvas[i, j] == Painted(i, j, old(canvas[i, j]), m, corrected)
        invariant forall i, j | 0 <= i < canvas.Length0 && 0 <= j < canvas.Length1 &&
          !(box.minX <= i <= box.maxX && box.minY <= j < y) :: canvas[i, j] == old(canvas[i, j])
      {
        PaintRow(canvas, box, y, m, corrected);
        y := y + 1;
      }
    }

    /** One row of the scan: the pixels of row `y` inside `box`; every other pixel is left alone. */
    method PaintRow(canvas: array2<Rgb>, box: Box, y: int, m: Trig, corrected: bool)
      requires texture.Some?
      requires 0 <= box.minX && box.maxX < canvas.Length0 && 0 <= y < canvas.Length1
      modifies canvas
      ensures forall i :: box.minX <= i <= box.maxX ==> canvas[i, y] == Painted(i, y, old(canvas[i, y]), m, corrected)
      ensures forall i, j | 0 <= i < canvas.Length0 && 0 <= j < canvas.Length1 &&
        !(box.minX <= i <= box.maxX && j == y) :: canvas[i, j] == old(canvas[i, j])
    {
      var x := box.minX;
      while x <= box.maxX
        invariant box.minX <= x <= Max(box.minX, box.maxX + 1)
        invariant forall i :: box.minX <= i < x ==> canvas[i, y] == Painted(i, y, old(canvas[i, y]), m, corrected)
        invariant forall i, j | 0 <= i < canvas.Length0 && 0 <= j < canvas.Length1 &&
          !(box.minX <= i < x && j == y) :: canvas[i, j] == old(canvas[i, j])
      {
        var pixel := PixelAt(x, y, m, corrected);
        if pixel.Some? {
          canvas[x, y] := pixel.value;
        }
        x := x + 1;
      }
    }
  }

  /** The contents of a canvas, column by column: `Pixels(canvas)[x][y]` is the pixel at (x, y). */
  function Pixels(canvas: array2<Rgb>): (p: seq<seq<Rgb>>)
    reads canvas
    ensures |p| == canvas.Length0 && forall i :: 0 <= i < |p| ==> |p[i]| == canvas.Length1
    ensures forall i, j :: 0 <= i < canvas.Length0 && 0 <= j < canvas.Length1 ==> p[i][j] == canvas[i, j]
  {
    seq(canvas.Length0, i reads canvas requires 0 <= i < canvas.Length0 =>
      seq(canvas.Length1, j reads canvas requires 0 <= j < canvas.Length1 => canvas[i, j]))
  }

  /** The canvas after `q.render` over the pixels `before`: painted inside the scanned rectangle, unchanged outside. */
  predicate Rendered(q: Quad2D, canvas: array2<Rgb>, before: seq<seq<Rgb>>, m: Trig, corrected: bool)
    requires q.texture.Some?
    reads canvas
  {
    PaintedIn(q, canvas, q.ScanBox(canvas.Length0, canvas.Length1), before, m, corrected)
  }

  /** Inside `box` each pixel of `before` is painted; every other pixel is as in `before`. */
  predicate PaintedIn(q: Quad2D, canvas: array2<Rgb>, box: Box, before: seq<seq<Rgb>>, m: Trig, corrected: bool)
    requires q.texture.Some?
    reads canvas
  {
    && |before| == canvas.Length0
    && (forall i :: 0 <= i < |before| ==> |before[i]| == canvas.Length1)
    && forall i, j :: 0 <= i < canvas.Length0 && 0 <= j < canvas.Length1 ==>
      canvas[i, j] == if box.Contains(i, j) then q.Painted(i, j, before[i][j], m, corrected) else before[i][j]
  }

  // ---------------------------------------------------------------------
  // Properties

  /** With the default texture corners, `transformUV` passes [0,1]^2 through unchanged and rejects the rest. */
  lemma TransformUVDefault(q: Quad2D, uv: Vector2D)
    requires q.DefaultUV()
    ensures q.TransformUV(Some(uv)) == if InUnit(uv.x) && InUnit(uv.y) then Some(uv) else None
  {
    var a := q.uvTopLeft.Lerp(q.uvTopRight, uv.x);
    var b := q.uvBottomLeft.Lerp(q.uvBottomRight, uv.x);
    assert a == Vector2D(uv.x, 0.0);
    assert b == Vector2D(uv.x, 1.0);
    assert a.Lerp(b, uv.y) == uv by {
      assert uv.x * (1.0 - uv.y) + uv.x * uv.y == uv.x;
    }
  }

  /** The corners of the unit square land on the texture corners, when those lie in [0,1]^2. */
  lemma TransformUVCorners(q: Quad2D)
    ensures InUnit(q.uvTopLeft.x) && InUnit(q.uvTopLeft.y) ==> q.TransformUV(Some(Vector2D(0.0, 0.0))) == Some(q.uvTopLeft)
    ensures InUnit(q.uvBottomRight.x) && InUnit(q.uvBottomRight.y) ==>
      q.TransformUV(Some(Vector2D(1.0, 1.0))) == Some(q.uvBottomRight)
  {
    LerpEndpoints(q.uvTopLeft, q.uvTopRight);
    LerpEndpoints(q.uvBottomLeft, q.uvBottomRight);
    LerpEndpoints(q.uvTopLeft, q.uvBottomLeft);
    LerpEndpoints(q.uvTopRight, q.uvBottomRight);
  }

  /** Translating by `a` and then by `b` moves the corners as translating by `a + b` does. */
  lemma TranslateTwice(q: Quad2D, a: Vector2D, b: Vector2D)
    ensures q.Translate(a).Translate(b) == q.Translate(a.Add(b))
  {
  }

  /** Translating back undoes a translation. */
  lemma TranslateBack(q: Quad2D, v: Vector2D)
    ensures q.Translate(v).Translate(Vector2D(-v.x, -v.y)) == q
  {
    AddSubtract2D(q.topLeft, v);
    AddSubtract2D(q.topRight, v);
    AddSubtract2D(q.bottomLeft, v);
    AddSubtract2D(q.bottomRight, v);
  }

  /** The defaults of `renderQuad` (no rotation, no offset) leave the quad as it is. */
  lemma DefaultPlacement(q: Quad2D, m: Trig)
    ensures q.Rotate(0.0, m).Translate(Vector2D(0.0, 0.0)) == q
  {
    assert q.topLeft.Add(Vector2D(0.0, 0.0)) == q.topLeft;
  }

  /** Rotation keeps every corner's distance from the origin. */
  lemma RotateKeepsRadii(q: Quad2D, radians: real, m: Trig)
    requires Lawful(m)
    ensures var r := q.Rotate(radians, m);
      && r.topLeft.Dot(r.topLeft) == q.topLeft.Dot(q.topLeft)
      && r.topRight.Dot(r.topRight) == q.topRight.Dot(q.topRight)
      && r.bottomLeft.Dot(r.bottomLeft) == q.bottomLeft.Dot(q.bottomLeft)
      && r.bottomRight.Dot(r.bottomRight) == q.bottomRight.Dot(q.bottomRight)
  {
    RotatePreservesLength(q.topLeft, radians, m);
    RotatePreservesLength(q.topRight, radians, m);
    RotatePreservesLength(q.bottomLeft, radians, m);
    RotatePreservesLength(q.bottomRight, radians, m);
  }

  /** Each corner whose truncated coordinates fall on the canvas lies in the scanned rectangle. */
  lemma ScanBoxCoversCorners(q: Quad2D, width: int, height: int)
    ensures var b := q.ScanBox(width, height);
      && (OnCanvas(q.topLeft, width, height) ==> b.Contains(ToInt(q.topLeft.x), ToInt(q.topLeft.y)))
      && (OnCanvas(q.topRight, width, height) ==> b.Contains(ToInt(q.topRight.x), ToInt(q.topRight.y)))
      && (OnCanvas(q.bottomLeft, width, height) ==> b.Contains(ToInt(q.bottomLeft.x), ToInt(q.bottomLeft.y)))
      && (OnCanvas(q.bottomRight, width, height) ==> b.Contains(ToInt(q.bottomRight.x), ToInt(q.bottomRight.y)))
  {
  }

  predicate OnCanvas(c: Vector2D, width: int, height: int)
  {
    0 <= ToInt(c.x) < width && 0 <= ToInt(c.y) < height
  }

  /** The answer of `render` is 4 or a sampler kind, so one of 0..4. */
  lemma RenderKindRange(q: Quad2D)
    ensures 0 <= q.Sampler().kind <= 4
  {
    NewSamplerKind(q.topLeft, q.topRight, q.bottomLeft, q.bottomRight);
  }

  /**
   * The program's `render` and the corrected one paint the same pixels,
   * except on a quad in the sampler's blind spots, where the program's paints
   * none at all and leaves every pixel as it was.
   */
  lemma RenderCorrectionScope(q: Quad2D, x: int, y: int, before: Rgb, m: Trig)
    requires q.texture.Some?
    ensures !BlindSpot(q.Sampler()) ==> q.PixelAt(x, y, m, false) == q.PixelAt(x, y, m, true)
    ensures BlindSpot(q.Sampler()) ==> q.PixelAt(x, y, m, false) == None && q.Painted(x, y, before, m, false) == before
  {
    SamplersAgree(q.Sampler(), Vector2D(x as real, y as real), m);
  }
}
