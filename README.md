# warp3d in Dafny

A verified model of the core of warp3d, a small software renderer for textured
quadrilaterals written in Kotlin. Its pipeline runs as follows:

- A quad is rotated and then translated.
- A 3D quad is projected through a pinhole `Camera`. The projection is all or
  nothing: when one corner is at or behind the camera plane there is no
  screen quad.
- The screen quad is rasterised by `Quad2D.render`. For every pixel of the
  quad's clamped bounding box, `render` asks a `UVSampler` for the texture
  coordinates (U, V) of the pixel. It maps them through the quad's texture
  corners, picks the texel and writes it tinted by the quad's colour.

The library's entry points are the two `Warp3D.renderQuad` overloads. They
answer the sampler's kind, 4 for an untextured quad, and -1 when a 3D quad
cannot be projected.

Modules, one per source file:

| module | file | models |
|---|---|---|
| `MathUtil` | `MathUtil.dfy` | `MathUtil` (EPSILON, ZERO_TOLERANCE, `fuzzyEquals`), Kotlin `Int` wrap-around and `Double.toInt`, the transcendental functions as a `Trig` parameter |
| `Vectors` | `Vectors.dfy` | `Vector2D`, `Vector3D` (a value for the pure operations, a `Vector3DRef` class for the in-place `apply`) |
| `Quaternions` | `Quaternions.dfy` | `Quaternion` |
| `Cameras` | `Camera.dfy` | `Camera` as a class with its size fields, its two lazy caches and `project`; `ProjectPoint` is the projection as a function of the camera's state (`Lens`) |
| `SamplerAlgebra`, `Sampling` | `SamplerAlgebra.dfy`, `UVSampler.dfy` | `UVSampler`: classification, `sampleU`, `sampleV`, `safeDiv` and both `sampleUV` overloads |
| `Quads2D` | `Quad2D.dfy` | `Quad2D`: `transformUV`, `translate`, `rotate` and the textured `render` loop over an `array2` canvas |
| `Quads3D` | `Quad3D.dfy` | `Quad3D`: `translate`, `rotate`, `project` |
| `Warp` | `Warp3D.dfy` | both `renderQuad` overloads |

Modelling choices:

- **Numbers.**
  - `Double` is `real`, so every algebraic identity is exact.
  - `sin`, `cos`, `tan`, `acos` and `sqrt` are fields of a `Trig` value passed
    in. `Lawful(m)` states the facts the proofs use: sqrt squares back,
    sin² + cos² = 1, sin 0 = 0, cos 0 = 1, and sin(acos c) > 0 on (-1, 1).
  - Kotlin `Int` is `Int32`. `width - height` in `setSize` wraps (`Wrap32`).
  - `Double.toInt` truncates toward zero and saturates at the `Int` bounds
    (`ToInt`, `Trunc`).
- **IEEE divisions in the sampler.** A division by exactly zero in the sampler
  gives an infinity or NaN in the source, and every such value then fails the
  `in 0.0..1.0` test that follows. Here that quotient is `None` (`Quot`).
- **Pixels and canvas.** A pixel is the ARGB word read as an unsigned 32-bit
  number. The canvas is an `array2` indexed `[x, y]` and is updated in place.
  A texture is an immutable grid of pixels of at least 1x1.
- **The sampler.** It is immutable, so it is a datatype built by `NewSampler`
  under the source's own field names. `SampleUVAsWritten` follows the source
  branch for branch; `SampleUV` fixes the two formulas listed under Findings.
  `render` takes a `corrected` flag choosing between them, and the entry points
  pass false, as the program does:
  - top-left (p, l), top-right (o, k), bottom-left (u, j), bottom-right (t, h);
  - in `sampleUV`, the locals named `u` and `v` are kept apart from these
    fields;
  - the array overload of `sampleUV` is a method over an `array<real>`.
- **The camera.** `Camera` keeps the caller's position object, as the source's
  constructor does. `setPosition` overwrites that object in place and
  `getPosition` returns a fresh copy.

## Model

| member | source | states |
|---|---|---|
| MathUtil.FuzzyEquals | src/main/kotlin/codes/wasabi/warp3d/math/MathUtil.kt:30-32 | `fuzzyEquals(a, b)`: the two values are at most EPSILON apart; its meaning, reflexivity and symmetry are the three lemmas below |
| MathUtil.FuzzyEqualsMeaning | src/main/kotlin/codes/wasabi/warp3d/math/MathUtil.kt:30-32 | `fuzzyEquals(a, b)` holds exactly when b lies in [a - EPSILON, a + EPSILON] (and a in [b - EPSILON, b + EPSILON]), boundary included |
| MathUtil.FuzzyEqualsReflexive | src/main/kotlin/codes/wasabi/warp3d/math/MathUtil.kt:30-32 | every value is fuzzily equal to itself |
| MathUtil.FuzzyEqualsSymmetric | src/main/kotlin/codes/wasabi/warp3d/math/MathUtil.kt:30-32 | `fuzzyEquals(a, b)` iff `fuzzyEquals(b, a)` |
| MathUtil.TolerancesOrdered | src/main/kotlin/codes/wasabi/warp3d/math/MathUtil.kt:26-27 | 0 < ZERO_TOLERANCE < EPSILON |
| MathUtil.Wrap32 | src/main/kotlin/codes/wasabi/warp3d/util/Camera.kt:61 | Kotlin `Int` subtraction: the result is congruent to the exact difference modulo 2^32 and equal to it when it fits |
| MathUtil.TruncTowardZero | src/main/kotlin/codes/wasabi/warp3d/render/Quad2D.kt:113-115 | `toInt` truncation: floor for non-negative values, ceiling for negative ones, and odd (`Trunc(-d) == -Trunc(d)`) |
| MathUtil.ToInt | src/main/kotlin/codes/wasabi/warp3d/render/Quad2D.kt:102-105 | `Double.toInt` is the truncation for every value in `Int` range, and never negative for a non-negative value |
| MathUtil.Div | src/main/kotlin/codes/wasabi/warp3d/util/Camera.kt:148 | for a non-zero divisor the quotient times the divisor gives back the dividend |
| Vectors.Vector2D.Lerp | src/main/kotlin/codes/wasabi/warp3d/math/Vector2D.kt:25-31 | `lerp`: each coordinate weighted `1 - amount` on this vector and `amount` on the other; LerpEndpoints and LerpOnSegment state where it lands |
| Vectors.LerpEndpoints | src/main/kotlin/codes/wasabi/warp3d/math/Vector2D.kt:25-31 | `lerp(other, 0)` is this vector and `lerp(other, 1)` is `other` |
| Vectors.LerpOnSegment | src/main/kotlin/codes/wasabi/warp3d/math/Vector2D.kt:25-31 | the offset of `lerp(b, amount)` from a is `amount` times (b - a) |
| Vectors.Vector2D.Add | src/main/kotlin/codes/wasabi/warp3d/math/Vector2D.kt:33-35 | `add`: componentwise sum; AddSubtract2D shows `subtract` undoes it |
| Vectors.Vector2D.Subtract | src/main/kotlin/codes/wasabi/warp3d/math/Vector2D.kt:37-39 | `subtract`: componentwise difference; AddSubtract2D shows `add` undoes it |
| Vectors.AddSubtract2D | src/main/kotlin/codes/wasabi/warp3d/math/Vector2D.kt:33-39 | `add` and `subtract` undo each other, in both orders |
| Vectors.Vector2D.Dot | src/main/kotlin/codes/wasabi/warp3d/math/Vector2D.kt:51-53 | `dot`: sum of the coordinate products; DotSymmetric and RotatePreservesLength use it as the squared length |
| Vectors.DotSymmetric | src/main/kotlin/codes/wasabi/warp3d/math/Vector2D.kt:51-53 | `a.dot(b) == b.dot(a)` |
| Vectors.Vector2D.Rotate | src/main/kotlin/codes/wasabi/warp3d/math/Vector2D.kt:41-49 | `rotate`: this vector unchanged below ZERO_TOLERANCE, otherwise the rotation matrix of the angle's sine and cosine; RotateByZero and RotatePreservesLength state its two branches' properties |
| Vectors.RotateByZero | src/main/kotlin/codes/wasabi/warp3d/math/Vector2D.kt:41-42 | rotating by an angle below ZERO_TOLERANCE in magnitude returns an equal vector |
| Vectors.RotatePreservesLength | src/main/kotlin/codes/wasabi/warp3d/math/Vector2D.kt:43-48 | given sin² + cos² = 1, `rotate` keeps the squared length `dot(self)` |
| Vectors.Vector3D.Add | src/main/kotlin/codes/wasabi/warp3d/math/Vector3D.kt:27-29 | subtracting `other` from `this.add(other)` gives back this vector |
| Vectors.AddSubtract3D | src/main/kotlin/codes/wasabi/warp3d/math/Vector3D.kt:27-33 | `add` and `subtract` undo each other, in both orders |
| Vectors.Vector3D.Subtract | src/main/kotlin/codes/wasabi/warp3d/math/Vector3D.kt:31-33 | `subtract`: componentwise difference; AddSubtract3D and SubtractSelf state its properties |
| Vectors.SubtractSelf | src/main/kotlin/codes/wasabi/warp3d/math/Vector3D.kt:31-33 | `a.subtract(a)` is the zero vector |
| Vectors.AddAssociative | src/main/kotlin/codes/wasabi/warp3d/math/Vector3D.kt:27-29 | `add` is associative |
| Vectors.Vector3DRef.constructor | src/main/kotlin/codes/wasabi/warp3d/math/Vector3D.kt:19 | a new mutable vector holds the given coordinates |
| Vectors.Vector3DRef.Apply | src/main/kotlin/codes/wasabi/warp3d/math/Vector3D.kt:21-25 | after `a.apply(b)` a holds b's coordinates and b is unchanged |
| Vectors.Vector3DRef.Copy | src/main/kotlin/codes/wasabi/warp3d/util/Camera.kt:97 | `copy()` is a fresh object with the same coordinates |
| Quaternions.Quaternion.FuzzyEquals | src/main/kotlin/codes/wasabi/warp3d/math/Quaternion.kt:41-46 | `fuzzyEquals`: each of the four components fuzzily equal; Quaternions.FuzzyEqualsMeaning states it componentwise |
| Quaternions.FuzzyEqualsMeaning | src/main/kotlin/codes/wasabi/warp3d/math/Quaternion.kt:41-46 | two quaternions are fuzzily equal iff all four components are pairwise within EPSILON |
| Quaternions.FuzzyEqualsReflexive | src/main/kotlin/codes/wasabi/warp3d/math/Quaternion.kt:41-46 | quaternion fuzzy equality is reflexive |
| Quaternions.FuzzyEqualsSymmetric | src/main/kotlin/codes/wasabi/warp3d/math/Quaternion.kt:41-46 | quaternion fuzzy equality is symmetric |
| Quaternions.Quaternion.Slerp | src/main/kotlin/codes/wasabi/warp3d/math/Quaternion.kt:48-50 | `slerp` toward a fuzzily equal quaternion returns this one |
| Quaternions.Quaternion.ShortArc | src/main/kotlin/codes/wasabi/warp3d/math/Quaternion.kt:52-56 | the target of `slerp` is `other` or its negation, has a non-negative dot product with this one, and is the negation exactly when the dot product is negative |
| Quaternions.SlerpScale0 | src/main/kotlin/codes/wasabi/warp3d/math/Quaternion.kt:58-67 | `scale0` of `slerp`: `1 - amount`, or `sin((1 - amount)θ)/sin θ` with θ = acos(res) when 1 - res > 0.1; SlerpLinearWeights and SlerpEndpoints state its values |
| Quaternions.SlerpScale1 | src/main/kotlin/codes/wasabi/warp3d/math/Quaternion.kt:58-67 | `scale1` of `slerp`: `amount`, or `sin(amount·θ)/sin θ` when 1 - res > 0.1; SlerpLinearWeights and SlerpEndpoints state its values |
| Quaternions.SlerpLinearWeights | src/main/kotlin/codes/wasabi/warp3d/math/Quaternion.kt:58-67 | when 1 - dot <= 0.1 the weights stay 1 - amount and amount |
| Quaternions.SlerpEndpoints | src/main/kotlin/codes/wasabi/warp3d/math/Quaternion.kt:48-75 | for quaternions that are not fuzzily equal, `slerp` at 0 returns this one and at 1 the (possibly negated) target, in both branches |
| Quaternions.Quaternion.Normalize | src/main/kotlin/codes/wasabi/warp3d/math/Quaternion.kt:77-87 | IDENTITY when the norm is below ZERO_TOLERANCE; the same components when the norm is fuzzily 1 |
| Quaternions.NormalizeUnit | src/main/kotlin/codes/wasabi/warp3d/math/Quaternion.kt:81-86 | a quaternion whose norm is fuzzily 1 normalises to itself |
| Quaternions.NormalizeIdentity | src/main/kotlin/codes/wasabi/warp3d/math/Quaternion.kt:77-87 | IDENTITY normalises to itself |
| Quaternions.NormalizeToUnit | src/main/kotlin/codes/wasabi/warp3d/math/Quaternion.kt:77-87 | when the norm is at least ZERO_TOLERANCE and not fuzzily 1, `normalize` divides by its square root and the result has norm exactly 1 |
| Quaternions.FromAngles | src/main/kotlin/codes/wasabi/warp3d/math/Quaternion.kt:11-33 | `fromAngles`: the half-angle composition, normalised; FromAnglesZero states it at zero angles |
| Quaternions.FromAnglesRaw | src/main/kotlin/codes/wasabi/warp3d/math/Quaternion.kt:12-32 | the quaternion `fromAngles` builds before `normalize`; FromAnglesRawZero states it at zero angles |
| Quaternions.FromAnglesZero | src/main/kotlin/codes/wasabi/warp3d/math/Quaternion.kt:11-33 | `fromAngles(0, 0, 0)` is IDENTITY |
| Quaternions.FromAnglesRawZero | src/main/kotlin/codes/wasabi/warp3d/math/Quaternion.kt:11-31 | before normalising, the zero angles give IDENTITY's components |
| Quaternions.Quaternion.Mult | src/main/kotlin/codes/wasabi/warp3d/math/Quaternion.kt:89-96 | `mult(q)`: the expanded Hamilton product; MultIdentity, MultInverse and MultVecIsSandwich state its algebra |
| Quaternions.Quaternion.MultVec | src/main/kotlin/codes/wasabi/warp3d/math/Quaternion.kt:98-104 | `mult(v)`: the expanded rotation of v; MultVecIsSandwich proves it equals q·v·conj(q) through Mult, and IdentityRotatesNothing and MultVecScale state its other properties |
| Quaternions.MultIdentity | src/main/kotlin/codes/wasabi/warp3d/math/Quaternion.kt:89-96 | IDENTITY is a two-sided unit of the Hamilton product |
| Quaternions.IdentityRotatesNothing | src/main/kotlin/codes/wasabi/warp3d/math/Quaternion.kt:98-104 | `IDENTITY.mult(v)` is v for every vector |
| Quaternions.MultVecIsSandwich | src/main/kotlin/codes/wasabi/warp3d/math/Quaternion.kt:98-104 | `mult(v)` is the vector part of q · (v, 0) · conjugate(q), whose scalar part is 0 |
| Quaternions.MultVecScale | src/main/kotlin/codes/wasabi/warp3d/math/Quaternion.kt:98-104 | `mult(v)` commutes with scaling v |
| Quaternions.Quaternion.Dot | src/main/kotlin/codes/wasabi/warp3d/math/Quaternion.kt:106-108 | `dot`: sum of the component products; NormIsSelfDot relates it to the norm |
| Quaternions.Quaternion.Norm | src/main/kotlin/codes/wasabi/warp3d/math/Quaternion.kt:110-112 | the norm is never negative |
| Quaternions.NormIsSelfDot | src/main/kotlin/codes/wasabi/warp3d/math/Quaternion.kt:106-112 | `norm()` is `dot(this)`, is non-negative and is kept by `negate` |
| Quaternions.MultInverse | src/main/kotlin/codes/wasabi/warp3d/math/Quaternion.kt:114-126 | for a positive norm, `inverse()` is a two-sided inverse of the Hamilton product |
| Quaternions.Quaternion.Inverse | src/main/kotlin/codes/wasabi/warp3d/math/Quaternion.kt:114-126 | `inverse`: the conjugate over the norm when the norm is positive, else IDENTITY; MultInverse, InverseOfDegenerate and InverseOfUnit state both branches |
| Quaternions.InverseOfDegenerate | src/main/kotlin/codes/wasabi/warp3d/math/Quaternion.kt:114-126 | for a norm <= 0, `inverse()` is IDENTITY |
| Quaternions.InverseOfUnit | src/main/kotlin/codes/wasabi/warp3d/math/Quaternion.kt:114-126 | the inverse of a unit quaternion is its conjugate |
| Quaternions.Quaternion.Negate | src/main/kotlin/codes/wasabi/warp3d/math/Quaternion.kt:128-130 | `negate`: every component negated; NegateInvolution and NormIsSelfDot state its properties |
| Quaternions.NegateInvolution | src/main/kotlin/codes/wasabi/warp3d/math/Quaternion.kt:128-130 | `negate` is an involution |
| Cameras.Camera.constructor | src/main/kotlin/codes/wasabi/warp3d/util/Camera.kt:26-55 | a new camera is consistent, shares the caller's position object, stores the given size, rotation, field of view and `tan`, so its lens looks through `tan(fov)`, and has both caches empty |
| Cameras.Camera.SetSize | src/main/kotlin/codes/wasabi/warp3d/util/Camera.kt:57-74 | stores the size; `widthLarger` iff width > height; `maxDimension` is the larger side and `halfMaxDimension` half of it; the padding is consistent |
| Cameras.Padding | src/main/kotlin/codes/wasabi/warp3d/util/Camera.kt:57-74 | the `padding` that `setSize` stores: half the size difference, floored; PaddingOfCanvas and PaddingCases state its value |
| Cameras.PaddingOfCanvas | src/main/kotlin/codes/wasabi/warp3d/util/Camera.kt:57-74 | for a non-negative size the padding is floor(\|w - h\| / 2) |
| Cameras.PaddingCases | src/main/kotlin/codes/wasabi/warp3d/util/Camera.kt:60-70 | the padding per branch: the wrapped difference halved when the sides differ, 0 when they are equal |
| Cameras.Camera.SetWidth | src/main/kotlin/codes/wasabi/warp3d/util/Camera.kt:76-78 | sets the width and keeps the height |
| Cameras.Camera.SetHeight | src/main/kotlin/codes/wasabi/warp3d/util/Camera.kt:84-86 | sets the height and keeps the width |
| Cameras.Camera.SetPosition | src/main/kotlin/codes/wasabi/warp3d/util/Camera.kt:92-94 | the owned position takes the argument's coordinates in place; the argument is unchanged |
| Cameras.Camera.GetPosition | src/main/kotlin/codes/wasabi/warp3d/util/Camera.kt:96-98 | returns a fresh object holding the position, so it aliases nothing of the camera |
| Cameras.Camera.SetRotation | src/main/kotlin/codes/wasabi/warp3d/util/Camera.kt:100-104 | a fuzzily equal rotation changes nothing; otherwise the rotation is stored and the inverse-rotation cache cleared |
| Cameras.Camera.SetFOV | src/main/kotlin/codes/wasabi/warp3d/util/Camera.kt:110-114 | a fuzzily equal field of view changes nothing; otherwise it is stored and the tan(fov) cache cleared |
| Cameras.Camera.GetInverseRotation | src/main/kotlin/codes/wasabi/warp3d/util/Camera.kt:120-127 | afterwards the cache is filled, holds `rotation.inverse()`, which is returned, and `shouldProcessRotation` holds iff that inverse is not fuzzily IDENTITY |
| Cameras.Camera.GetTanFov | src/main/kotlin/codes/wasabi/warp3d/util/Camera.kt:129-135 | afterwards the cache is filled and the answer is tan(fov) |
| Cameras.Camera.Project | src/main/kotlin/codes/wasabi/warp3d/util/Camera.kt:137-161 | the answer is the projection of the camera's state, which only the caches change |
| Cameras.Camera.Screen | src/main/kotlin/codes/wasabi/warp3d/util/Camera.kt:148-160 | the perspective divide, screen mapping and letterbox shift computed from the size fields agree with the projection's screen function |
| Cameras.ProjectPoint | src/main/kotlin/codes/wasabi/warp3d/util/Camera.kt:137-161 | `project` as a function of the camera's state: no point when the relative z is at most 0, else the letterboxed screen point; ProjectRejectsBehind, ProjectOpticalAxisSquare, ProjectOpticalAxisCentred, ProjectTranslationInvariant and ProjectAlongRay state its properties |
| Cameras.Relative | src/main/kotlin/codes/wasabi/warp3d/util/Camera.kt:138-143 | the point relative to the camera, turned by the inverse rotation unless that is fuzzily IDENTITY; RelativeAlongRay and ProjectTranslationInvariant state its properties |
| Cameras.ToScreen | src/main/kotlin/codes/wasabi/warp3d/util/Camera.kt:147-160 | the perspective divide by `z·tan(fov)`, scaled about the half dimension and letterboxed; ToScreenScale states its invariance under scaling |
| Cameras.Letterbox | src/main/kotlin/codes/wasabi/warp3d/util/Camera.kt:153-160 | screen coordinates with the padding taken from y when the canvas is wider, else from x; LetterboxCentred states where it puts the centre |
| Cameras.ProjectRejectsBehind | src/main/kotlin/codes/wasabi/warp3d/util/Camera.kt:138-145 | a point has no projection iff its camera-relative (rotated when the inverse rotation is not fuzzily IDENTITY) z is <= 0 |
| Cameras.ProjectOpticalAxisSquare | src/main/kotlin/codes/wasabi/warp3d/util/Camera.kt:148-160 | at the origin, without rotation processing and on a square canvas, (0, 0, z) with z > 0 projects to (width/2, height/2) |
| Cameras.ProjectOpticalAxisCentred | src/main/kotlin/codes/wasabi/warp3d/util/Camera.kt:148-160 | on any canvas the optical axis lands within half a pixel right of and below the centre, exactly on it when the sides differ by an even number |
| Cameras.LetterboxCentred | src/main/kotlin/codes/wasabi/warp3d/util/Camera.kt:153-160 | the letterbox maps the centre of the normalised square to the canvas centre, or at most half a pixel past it along the shorter side when the sides differ by an odd number |
| Cameras.ProjectTranslationInvariant | src/main/kotlin/codes/wasabi/warp3d/util/Camera.kt:137-161 | moving the camera and the point by the same offset changes no projection |
| Cameras.RelativeAlongRay | src/main/kotlin/codes/wasabi/warp3d/util/Camera.kt:138-143 | stretching a point about the camera stretches its camera-relative coordinates by the same factor |
| Cameras.ProjectAlongRay | src/main/kotlin/codes/wasabi/warp3d/util/Camera.kt:145-160 | all points of a ray from the camera (positive factor) project alike |
| Cameras.ToScreenScale | src/main/kotlin/codes/wasabi/warp3d/util/Camera.kt:148-160 | the screen position of a point in front of the camera does not change when its relative coordinates are scaled by a positive factor |
| SamplerAlgebra.DiscriminantPolynomial | src/main/kotlin/codes/wasabi/warp3d/util/UVSampler.kt:85-95 | the dense `v5` is the discriminant v7² + 4·v6·c of the quadratic v6·U² - v7·U - c, whose coefficients come from the corners and the sample point |
| SamplerAlgebra.BilinearRootPolynomial | src/main/kotlin/codes/wasabi/warp3d/util/UVSampler.kt:85-102 | the U of every point of the bilinear map is a root of that quadratic at that point |
| SamplerAlgebra.QuadraticFormula | src/main/kotlin/codes/wasabi/warp3d/util/UVSampler.kt:104-109 | both values `0.5 (v7 ∓ sqrt v5) / v6` are roots when v6 != 0 |
| SamplerAlgebra.RootIsFormulaValue | src/main/kotlin/codes/wasabi/warp3d/util/UVSampler.kt:104-109 | every root is one of those two values |
| Sampling.Quot | src/main/kotlin/codes/wasabi/warp3d/util/UVSampler.kt:157-165 | an IEEE quotient is finite iff the divisor is non-zero, and then it times the divisor is the dividend |
| Sampling.SafeDiv | src/main/kotlin/codes/wasabi/warp3d/util/UVSampler.kt:129-132 | 0 when the divisor is below ZERO_TOLERANCE in magnitude, else the exact quotient |
| Sampling.NewSampler | src/main/kotlin/codes/wasabi/warp3d/util/UVSampler.kt:39-71 | the constructor: fuzzy flags, the EPSILON tie-break and the kind; NewSamplerKind and NewSamplerCorners state all of it |
| Sampling.MakeFlag | src/main/kotlin/codes/wasabi/warp3d/util/UVSampler.kt:77-79 | `makeFlag`: the bit at `place` when the flag holds, else 0; used by the kind of NewSamplerKind |
| Sampling.NewSamplerKind | src/main/kotlin/codes/wasabi/warp3d/util/UVSampler.kt:40-70 | the kind is in 0..4; below 4, bit 0 is set iff both sides are fuzzily vertical and bit 1 iff top and bottom are fuzzily horizontal; 4 iff neither flag is set and both corner dot products are below EPSILON in magnitude |
| Sampling.NewSamplerCorners | src/main/kotlin/codes/wasabi/warp3d/util/UVSampler.kt:40-57 | p, l, o, j are the raw corner coordinates; u and t are shifted together by exactly EPSILON when exactly one side is fuzzily vertical and not at all otherwise, and k and h likewise when exactly one of top and bottom is fuzzily horizontal |
| Quads2D.RenderKindRange | src/main/kotlin/codes/wasabi/warp3d/util/UVSampler.kt:59-70 | every sampler `render` builds has a kind in 0..4 |
| Sampling.SolveAsWritten | src/main/kotlin/codes/wasabi/warp3d/util/UVSampler.kt:85-110 | the root search of `sampleU` on the quadratic's coefficients: -1 past either guard, else the first formula value if in [0,1], else the second; SolveAsWrittenRoot states it |
| Sampling.UVSampler.SampleUAsWritten | src/main/kotlin/codes/wasabi/warp3d/util/UVSampler.kt:81-111 | `sampleU` as written on this point's coefficients; SampleUAsWrittenGuards and SampleUAsWrittenRoot state it |
| Sampling.SampleUAsWrittenGuards | src/main/kotlin/codes/wasabi/warp3d/util/UVSampler.kt:85-97 | `sampleU` is -1 when v6 is 0 or the discriminant v5 is negative |
| Sampling.SampleUAsWrittenRoot | src/main/kotlin/codes/wasabi/warp3d/util/UVSampler.kt:99-110 | past those guards `sampleU` returns a root of the point's quadratic |
| Sampling.SolveAsWrittenRoot | src/main/kotlin/codes/wasabi/warp3d/util/UVSampler.kt:104-110 | the root search returns a root, and the first formula value whenever that lies in [0,1] |
| Sampling.SolveCorrectedFinds | src/main/kotlin/codes/wasabi/warp3d/util/UVSampler.kt:81-111 | with its linear case solved, the root search finds the only root in [0,1] whenever there is exactly one |
| Sampling.SampleUInverts | src/main/kotlin/codes/wasabi/warp3d/util/UVSampler.kt:81-111 | the corrected `sampleU` recovers U from the image of (U, V) when U is the quadratic's only root in [0,1] |
| Sampling.SegmentParam | src/main/kotlin/codes/wasabi/warp3d/util/UVSampler.kt:113-127 | `sampleV` measures along y when the segment is narrower than ZERO_TOLERANCE in x, else its answer is the parameter that reaches the sample's x |
| Sampling.UVSampler.SampleV | src/main/kotlin/codes/wasabi/warp3d/util/UVSampler.kt:113-127 | `sampleV`: the parameter of the point along the segment between the top and bottom edges at U; SegmentParam and SampleVInverts state it |
| Sampling.SegmentParamInverts | src/main/kotlin/codes/wasabi/warp3d/util/UVSampler.kt:113-127 | for a non-degenerate segment, `sampleV` of the point at parameter V is V |
| Sampling.SampleVInverts | src/main/kotlin/codes/wasabi/warp3d/util/UVSampler.kt:113-127 | `sampleV` at the right U recovers V from the image of (U, V) |
| Sampling.DiscriminantIdentity | src/main/kotlin/codes/wasabi/warp3d/util/UVSampler.kt:85-95 | on a sampler's own fields, `v5` is the discriminant of v6, v7 and the constant term |
| Sampling.BilinearRoot | src/main/kotlin/codes/wasabi/warp3d/util/UVSampler.kt:85-102 | the U of every image point is a root of the sampler's quadratic at that point |
| Sampling.UVSampler.FromU | src/main/kotlin/codes/wasabi/warp3d/util/UVSampler.kt:136-142 | a hit has both coordinates in [0,1]: the given U and `sampleV` at that U |
| Sampling.UVSampler.VerticalSides | src/main/kotlin/codes/wasabi/warp3d/util/UVSampler.kt:143-154 | types 1 and 3: a hit lies in [0,1]² with U the `safeDiv` of the x offset over the top edge's width |
| Sampling.UVSampler.HorizontalEdges | src/main/kotlin/codes/wasabi/warp3d/util/UVSampler.kt:173-183 | type 2: a hit lies in [0,1]² with V the `safeDiv` of the y offset over the left side's height (the fields u and t, not the local U) |
| Sampling.UVSampler.SampleUVAsWritten | src/main/kotlin/codes/wasabi/warp3d/util/UVSampler.kt:134-184 | `sampleUV` as written: every hit lies in [0,1]² |
| Sampling.UVSampler.SampleUV | src/main/kotlin/codes/wasabi/warp3d/util/UVSampler.kt:134-184 | `sampleUV` with the corrected types 0 and 4: every hit lies in [0,1]² |
| Sampling.UVSampler.Sample | src/main/kotlin/codes/wasabi/warp3d/util/UVSampler.kt:134-184 | the sampler as written or the corrected one, by a flag: every hit lies in [0,1]² |
| Sampling.Store | src/main/kotlin/codes/wasabi/warp3d/util/UVSampler.kt:140-141 | the two writes of a hit: both made into an array of length at least two; into a shorter array, the writes up to the first missing index, then the index-out-of-bounds outcome |
| Sampling.UVSampler.SampleUVInto | src/main/kotlin/codes/wasabi/warp3d/util/UVSampler.kt:134-184 | the array overload as written, for every array: false (`Missed`) iff `sampleUV` as written misses, and then `out` is unchanged; on a hit into an array of length at least two, true (`Written`), with exactly its U in `out[0]` and its V in `out[1]`, both in [0,1], and nothing else changed; on a hit into a shorter array, the `ArrayIndexOutOfBoundsException` (`IndexOutOfBounds`), after `out[0]` holds U when it exists |
| Sampling.UVSampler.SampleUVNullable | src/main/kotlin/codes/wasabi/warp3d/util/UVSampler.kt:186-190 | the nullable overload is `sampleUV` as written: null exactly on a miss, otherwise the hit |
| Sampling.RoundTripGeneral | src/main/kotlin/codes/wasabi/warp3d/util/UVSampler.kt:135-142 | type 0: sampling the image of (U, V) in [0,1]² returns (U, V) when U is the only root in [0,1] and the segment at U is non-degenerate; the corrected sampler always, the one as written whenever v6 is not 0 |
| Sampling.RoundTripRectangleAxisAligned | src/main/kotlin/codes/wasabi/warp3d/util/UVSampler.kt:143-154 | every type-3 quad with spans of at least ZERO_TOLERANCE, fuzzily aligned ones included: sampling (p + (o-p)U, l + (j-l)V) returns exactly (U, V), as written and corrected |
| Sampling.RoundTripVerticalSides | src/main/kotlin/codes/wasabi/warp3d/util/UVSampler.kt:143-154 | type 1 with exactly vertical sides: sampling the image of (U, V) returns (U, V), as written and corrected |
| Sampling.RoundTripHorizontalEdges | src/main/kotlin/codes/wasabi/warp3d/util/UVSampler.kt:173-183 | type 2 with exactly horizontal edges: sampling the image of (U, V) returns (U, V), as written and corrected |
| Sampling.ProjectU | src/main/kotlin/codes/wasabi/warp3d/util/UVSampler.kt:155-165 | corrected type-4 U: defined for every top edge of non-zero length |
| Sampling.ProjectionRecovers | src/main/kotlin/codes/wasabi/warp3d/util/UVSampler.kt:155-165 | on a rectangle, the projection on the top edge recovers U of every point TL + U·d + V·e |
| Sampling.RoundTripRotatedRectangle | src/main/kotlin/codes/wasabi/warp3d/util/UVSampler.kt:155-172 | type 4: sampling the image of (U, V) of a rectangle returns (U, V) with the corrected U whatever the direction of its top edge, and as written whenever that edge is neither vertical nor horizontal |
| Sampling.UVSampler.RectangleUAsWritten | src/main/kotlin/codes/wasabi/warp3d/util/UVSampler.kt:155-165 | type-4 U as written, from the top edge's slope; SlopeUAgrees and RectangleVerticalTopMisses state where it is right and where it fails |
| Sampling.SlopeU | src/main/kotlin/codes/wasabi/warp3d/util/UVSampler.kt:156-165 | the slope-intercept construction of type 4: where `pos.x` falls between the two intercepts, with no value wherever one of its divisions has a zero divisor; SlopeUAgrees relates it to ProjectU |
| Sampling.SlopeUAgrees | src/main/kotlin/codes/wasabi/warp3d/util/UVSampler.kt:157-165 | the slope-intercept U as written equals the projection whenever the top edge is neither vertical nor horizontal |
| Sampling.VerticalTopSquare | src/main/kotlin/codes/wasabi/warp3d/util/UVSampler.kt:39-71 | the constructor's fields and kind (4) for the square TL(1,1) TR(1,11) BL(-9,1) BR(-9,11) |
| Sampling.RectangleVerticalTopMisses | src/main/kotlin/codes/wasabi/warp3d/util/UVSampler.kt:157-167 | that square is type 4 and as written misses its own centre (-4, 6); the corrected sampler answers (0.5, 0.5) |
| Sampling.SlantedParallelogram | src/main/kotlin/codes/wasabi/warp3d/util/UVSampler.kt:39-71 | the constructor's fields and kind (0) for the parallelogram TL(1,1) TR(11,3) BL(2,11) BR(12,13) |
| Sampling.ParallelogramMisses | src/main/kotlin/codes/wasabi/warp3d/util/UVSampler.kt:85-86 | that parallelogram has v6 = 0, so as written it misses its own centre (6.5, 7); the corrected sampler answers (0.5, 0.5) |
| Sampling.SamplersAgree | src/main/kotlin/codes/wasabi/warp3d/util/UVSampler.kt:81-184 | the sampler as written and the corrected one give the same answer everywhere except on kind 0 with v6 = 0 and kind 4 with a vertical or horizontal top edge, where the one as written misses at every point |
| Quads2D.Pack | src/main/kotlin/codes/wasabi/warp3d/render/Quad2D.kt:117 | the ARGB word from four bytes; PackUnpack and UnpackPack show it inverts Alpha, Red, Green and Blue |
| Quads2D.PackUnpack | src/main/kotlin/codes/wasabi/warp3d/render/Quad2D.kt:116 | packing four bytes into an ARGB word and reading the channels back gives the bytes |
| Quads2D.UnpackPack | src/main/kotlin/codes/wasabi/warp3d/render/Quad2D.kt:113-116 | reading the four channels and packing them gives back the word |
| Quads2D.Tinted | src/main/kotlin/codes/wasabi/warp3d/render/Quad2D.kt:93-95 | the product of a texel byte and tint/255 lies between 0 and the byte |
| Quads2D.TintChannel | src/main/kotlin/codes/wasabi/warp3d/render/Quad2D.kt:113-115 | one channel times `tint / 255`, converted with `toInt`; TintChannelRange states it is the truncated product and a byte |
| Quads2D.TintChannelRange | src/main/kotlin/codes/wasabi/warp3d/render/Quad2D.kt:113-115 | a tinted channel is the truncated product and lies between 0 and the texel byte |
| Quads2D.LowByte | src/main/kotlin/codes/wasabi/warp3d/render/Quad2D.kt:116 | `and 0xFF` is a byte, and the identity on bytes |
| Quads2D.Shade | src/main/kotlin/codes/wasabi/warp3d/render/Quad2D.kt:113-117 | the pixel `render` writes for a texel: opaque, channels tinted and masked; ShadeChannels and ShadeWhite state it |
| Quads2D.ShadeChannels | src/main/kotlin/codes/wasabi/warp3d/render/Quad2D.kt:113-116 | a written pixel has alpha 0xFF and each channel the truncated product of the texel channel and tint/255 |
| Quads2D.ShadeWhite | src/main/kotlin/codes/wasabi/warp3d/render/Quad2D.kt:93-116 | a white tint keeps every colour channel (an opaque texel is written unchanged) |
| Quads2D.WhiteChannel | src/main/kotlin/codes/wasabi/warp3d/render/Quad2D.kt:113-115 | a channel tinted by 255 is unchanged |
| Quads2D.TexelIndex | src/main/kotlin/codes/wasabi/warp3d/render/Quad2D.kt:109-111 | the texel index of a coordinate in [0,1] lies in [0, size - 1] |
| Quads2D.TexelIndexCovers | src/main/kotlin/codes/wasabi/warp3d/render/Quad2D.kt:109-111 | below 1 the index is the texel containing `c · size`; at 1 it is clamped to the last texel |
| Quads2D.Quad2D.TransformUV | src/main/kotlin/codes/wasabi/warp3d/render/Quad2D.kt:44-52 | a result exists only for a sample, and lies in [0,1]² |
| Quads2D.TransformUVDefault | src/main/kotlin/codes/wasabi/warp3d/render/Quad2D.kt:35-52 | with the default texture corners `transformUV` is the identity on [0,1]² and null outside it |
| Quads2D.TransformUVCorners | src/main/kotlin/codes/wasabi/warp3d/render/Quad2D.kt:44-52 | (0,0) maps to the top-left texture corner and (1,1) to the bottom-right one when those lie in [0,1]² |
| Quads2D.Quad2D.Translate | src/main/kotlin/codes/wasabi/warp3d/render/Quad2D.kt:54-62 | every corner moves by the vector (subtracting it gives the old corner); texture corners, texture and colour kept |
| Quads2D.TranslateTwice | src/main/kotlin/codes/wasabi/warp3d/render/Quad2D.kt:54-62 | translating by a then by b is translating by a + b |
| Quads2D.TranslateBack | src/main/kotlin/codes/wasabi/warp3d/render/Quad2D.kt:54-62 | translating by v then by -v gives the quad back |
| Quads2D.Quad2D.Rotate | src/main/kotlin/codes/wasabi/warp3d/render/Quad2D.kt:64-73 | an angle below ZERO_TOLERANCE gives an equal quad; otherwise each corner is rotated by it; the surface is kept |
| Quads2D.RotateKeepsRadii | src/main/kotlin/codes/wasabi/warp3d/render/Quad2D.kt:64-73 | rotation keeps every corner's distance from the origin |
| Quads2D.Quad2D.ScanBox | src/main/kotlin/codes/wasabi/warp3d/render/Quad2D.kt:100-105 | every pixel of the scanned rectangle lies on the canvas |
| Quads2D.ScanBoxCoversCorners | src/main/kotlin/codes/wasabi/warp3d/render/Quad2D.kt:100-105 | the scanned rectangle contains the truncated position of every corner that lies on the canvas |
| Quads2D.Quad2D.Sampler | src/main/kotlin/codes/wasabi/warp3d/render/Quad2D.kt:98 | the sampler `render` builds on the quad's four corners; RenderKindRange states its kind |
| Quads2D.Quad2D.PixelAt | src/main/kotlin/codes/wasabi/warp3d/render/Quad2D.kt:108-116 | the pixel the loop body writes at (x, y), or none when `transformUV` of the sample gives nothing; RenderCorrectionScope states when it misses |
| Quads2D.Quad2D.Painted | src/main/kotlin/codes/wasabi/warp3d/render/Quad2D.kt:108-116 | the pixel at (x, y) after the loop body: PixelAt on a hit, else the old value; Render, PaintBox and PaintRow ensure the canvas holds it |
| Quads2D.Quad2D.Render | src/main/kotlin/codes/wasabi/warp3d/render/Quad2D.kt:75-121 | without a texture the answer is 4; with one the answer is the sampler's kind, every scanned pixel where the sample hits holds the shaded texel, and every other pixel keeps its value; the program's `render` samples as written (`corrected` false) |
| Quads2D.Quad2D.PaintBox | src/main/kotlin/codes/wasabi/warp3d/render/Quad2D.kt:106-118 | the nested loops write the shaded texel at each hit of the selected sampler in the rectangle and leave every other pixel alone |
| Quads2D.Quad2D.PaintRow | src/main/kotlin/codes/wasabi/warp3d/render/Quad2D.kt:107-117 | the inner `for x` loop writes the shaded texel at each hit of the selected sampler in row y inside the rectangle and leaves every other pixel alone |
| Quads2D.RenderCorrectionScope | src/main/kotlin/codes/wasabi/warp3d/render/Quad2D.kt:106-118 | the program's `render` and the corrected one write the same pixel everywhere, except on a quad in the sampler's blind spots, where the program's writes no pixel at all |
| Quads2D.DefaultPlacement | src/main/kotlin/codes/wasabi/warp3d/Warp3D.kt:31-33 | the default rotation 0 and position (0, 0) leave a screen quad as it is |
| Quads3D.Quad3D.Translate | src/main/kotlin/codes/wasabi/warp3d/render/Quad3D.kt:41-49 | every corner moves by the vector; texture corners, texture and colour kept |
| Quads3D.TranslateTwice | src/main/kotlin/codes/wasabi/warp3d/render/Quad3D.kt:41-49 | translating by a then by b is translating by a + b |
| Quads3D.Quad3D.Rotate | src/main/kotlin/codes/wasabi/warp3d/render/Quad3D.kt:51-60 | a rotation fuzzily equal to IDENTITY gives an equal quad; otherwise every corner goes through the same `rotation.mult`; the surface is kept |
| Quads3D.Quad3D.ProjectThrough | src/main/kotlin/codes/wasabi/warp3d/render/Quad3D.kt:62-70 | a screen quad, when there is one, has the four projected corners in order and this quad's texture corners, texture and colour |
| Quads3D.Quad3D.Project | src/main/kotlin/codes/wasabi/warp3d/render/Quad3D.kt:62-70 | `project` through a camera answers the projection of its state (null as soon as one corner has none) and changes only the camera's caches |
| Quads3D.ProjectThroughVisible | src/main/kotlin/codes/wasabi/warp3d/render/Quad3D.kt:62-70 | there is a screen quad iff all four corners are in front of the camera |
| Quads3D.ProjectThroughTranslation | src/main/kotlin/codes/wasabi/warp3d/render/Quad3D.kt:62-70 | moving the quad and the camera together gives the same screen quad |
| Quads3D.ProjectThroughAlongRay | src/main/kotlin/codes/wasabi/warp3d/render/Quad3D.kt:62-70 | stretching the quad about the camera position by a positive factor gives the same screen quad |
| Quads3D.DefaultPlacement | src/main/kotlin/codes/wasabi/warp3d/Warp3D.kt:35-37 | the default rotation IDENTITY and position (0, 0, 0) leave a world quad as it is |
| Warp.DefaultLens | src/main/kotlin/codes/wasabi/warp3d/Warp3D.kt:36 | `Camera(canvas.width, canvas.height)` sits at the origin, unrotated, with the canvas size and tan of the default field of view |
| Warp.RenderQuad2D | src/main/kotlin/codes/wasabi/warp3d/Warp3D.kt:31-33 | the 2D overload renders the quad rotated first, then translated, with the sampler as written, and answers what `render` answers |
| Warp.RenderQuad3D | src/main/kotlin/codes/wasabi/warp3d/Warp3D.kt:35-37 | the 3D overload answers -1 and leaves the canvas alone exactly when the rotated-then-translated quad has no projection through the given camera (or the canvas-sized default), otherwise renders the screen quad with the sampler as written and answers 4 or its kind in 0..4; a given camera keeps its state |
| Warp.RenderScreen | src/main/kotlin/codes/wasabi/warp3d/Warp3D.kt:36 | the `?.render(canvas) ?: -1` step: -1 and an unchanged canvas without a screen quad, the program's `render` (sampler as written) otherwise |
| Warp.RenderedThrough | src/main/kotlin/codes/wasabi/warp3d/Warp3D.kt:36 | the outcome of `?.render(canvas) ?: -1`: -1 and an unchanged canvas without a screen quad, else what `render` ensures; RenderQuad3D and RenderScreen ensure it |
| Warp.ProjectWith | src/main/kotlin/codes/wasabi/warp3d/Warp3D.kt:36 | the `project(camera ?: Camera(width, height))` step answers the projection through the given camera's state or the default camera's |

## Left out

- Untextured `render` (src/main/kotlin/codes/wasabi/warp3d/render/Quad2D.kt:76-91) fills the polygon through the host's `Graphics2D`. Only its answer, 4, is modelled. What it does to the canvas is left unspecified.
- IEEE-754 rounding, NaN and infinity:
  - all arithmetic is exact over `real`;
  - in the sampler, a quotient by exactly zero is `None`, which stands for the non-finite value that then fails every `in 0.0..1.0` test (this covers the `isNaN` check);
  - no claim is made about results within floating-point tolerance.
- MathUtil.Div: the camera's `1.0 / (z * tanFov)` with tan(fov) = 0 is an infinity in the source. The model gives 0, because Dafny's `real` has no infinity.
- `sin`, `cos`, `tan`, `acos` and `sqrt` are uninterpreted functions of a `Trig` value. The proofs rely only on the facts `Lawful` lists. `fromAngles` is only checked at zero angles. The trigonometric branch of `slerp` is only checked at its end points.
- The static `Quaternion.slerp(a, b, amount)` (src/main/kotlin/codes/wasabi/warp3d/math/Quaternion.kt:35-37) only forwards to `a.slerp(b, amount)`, so it is not modelled separately.
- The plain getters `getWidth`, `getHeight`, `getRotation` and `getFOV` of `Camera` are field reads. The model reads the fields directly.
- The texture (`BufferedImage`) is an immutable grid of unsigned ARGB words. The canvas is an `array2` of them. Kotlin's `Int` pixel is signed, but every channel is masked with `0xFF`, so the unsigned reading gives the same bytes.
- The alpha of `Color` is not modelled, since `render` never reads it.
- Sampling.RoundTripGeneral: the general (type 0) round trip requires U to be the quadratic's only root in [0,1]. A quad whose bilinear map folds over has two roots there, and the source then picks the first formula value.
- Sampling.UVSampler.SampleUV: this corrected sampler differs from the program's on the quads of the Findings. Both `sampleUV` overloads and the `render` reached from `Warp3D.renderQuad` use the sampler as written; the corrected one is used only when `render` is asked for it (`corrected` true).

## Findings

| source | as written | input that shows it | evidently intended | confidence | as-written member | corrected member |
|---|---|---|---|---|---|---|
| src/main/kotlin/codes/wasabi/warp3d/util/UVSampler.kt:157-165 | type 4 takes U from the slope `mt = (k - l) / (o - p)` of the top edge and the slope `-1 / mt` of its normal, so a top edge that is exactly vertical gives an infinite slope and NaN from there on | the square TL(1,1) TR(1,11) BL(-9,1) BR(-9,11), kind 4, sampled at its centre (-4, 6): no coordinates, so no pixel of the square is drawn | U as the projection of the sample on the top edge, `((pos - TL) · d) / (d · d)`, which is what the slope formula computes whenever it is finite | high, not executed | Sampling.RectangleVerticalTopMisses | Sampling.RoundTripRotatedRectangle |
| src/main/kotlin/codes/wasabi/warp3d/util/UVSampler.kt:86 | `sampleU` gives up when the leading coefficient `v6` is 0, and `v6` is 0 for every parallelogram, where the equation in U is linear | the parallelogram TL(1,1) TR(11,3) BL(2,11) BR(12,13), kind 0, sampled at its centre (6.5, 7): no coordinates, so no pixel of a sheared quad is drawn | when `v6` is 0, solve the linear equation `v7 · U + c = 0` | high, not executed | Sampling.ParallelogramMisses | Sampling.SolveCorrectedFinds |
