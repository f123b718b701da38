# Relativistic art viewer: a Dafny model of its core

The viewer shows a painting as seen by an observer moving past it at a
sizeable fraction of the speed of light. This project models the logic
that drives it:

- **The per-frame driver of the artwork plane** (`ArtCanvas`). Each frame it:
  - derives the zoom level from the camera distance;
  - picks the texture tier;
  - caps the speed at 0.9999 c;
  - hands the Lorentz and Doppler factors and the unit direction of motion to the shader;
  - resets the mesh transform to the identity and, above a speed of 0.001, applies `rotateBack · scale(1/γ) · rotateToX` to it, which is the contraction along the direction of motion; at or below 0.001 the transform stays the identity. The `updateMatrix()` call that ends the frame rebuilds the matrix from a rotation and an axis-aligned scale, which loses that contraction for diagonal motion (see "## Findings").

  The module also derives the address of the high-resolution image and models the texture-load callbacks.
- **The fragment shader's decisions and clamps** (`Shader`):
  - pixels outside the unit square are transparent;
  - the texture tier is chosen;
  - the hue is wrapped with `mod(h + shift, 1.0)`;
  - the brightness is capped with `min(v·D, 1)`;
  - the zoom-dependent contrast and saturation correction is applied.
- **2×2 transform algebra** (`Transform`). The contraction is proved to:
  - scale the direction of motion by the factor;
  - fix the perpendicular axis;
  - be the only matrix that does both.
- **Speed helpers** (`Motion`):
  - the speed cap;
  - the magnitude, taken as a square-root witness;
  - the unit direction;
  - the admissibility of the γ and Doppler functions.
- **The sidebar** (`Sidebar`):
  - the Title-Case formatting of artwork titles;
  - the acceptance rule for typed velocities;
  - the particle presets;
  - the choice of the nearest preset (earliest on ties).
- **The gallery upload** (`Gallery`):
  - the image MIME check;
  - the extension stripping `/\.[^/.]+$/`;
  - the custom artwork record;
  - the upload handler.
- **The state store** (`Store`): velocity X, velocity Y and the current artwork, with one setter each.
- **JavaScript string operations** (`Text`) used by the above:
  - first-occurrence `replace`;
  - `split(' ')` and `join(' ')`;
  - ASCII case mapping;
  - decimal rendering of the clock.

Stateful parts are classes: the store, the artwork plane, the sidebar and
the gallery popup. Their methods state the whole new state. Three of them
are tied to pure functions whose properties are proved as lemmas:

- `ArtPlane.Frame` ends in `FrameUniforms` and `FrameMatrix`.
- `Sidebar.HandleVelocityInput` accepts exactly what `AcceptVelocity` accepts.
- `GalleryPopup.HandleFileUpload` stores the record built by `CustomArtwork`.

The store's setters and `Sidebar.HandleParticleSelect` state their new
state directly.

Two behaviours of the code are easy to miss:

- Typed input is accepted only up to 0.9999 (src/components/Sidebar.tsx:72),
  and the number inputs and sliders declare `max` 0.9999
  (src/components/Sidebar.tsx:138, 147, 163, 172). `handleParticleSelect`,
  however, writes the preset's speed unchecked, and the LHC proton's is
  0.99999999 (src/components/Sidebar.tsx:13, 86). So a store component can
  exceed 0.9999. Every preset is still below 1, and only the magnitude is
  capped, at render time. (`Sidebar.ParticleSpeeds`,
  `Sidebar.Sidebar.HandleParticleSelect`.)
- The high-resolution address replaces the first ".jpg" anywhere in the
  address, not only a trailing one (`String.replace` with a string pattern).
  (`ArtCanvas.HighResSrc`.)

## Model

| member | source | states |
|---|---|---|
| Store.RelativityStore.constructor | src/store/relativityStore.ts:22-25 | the store starts at rest (both velocities 0) with no artwork |
| Store.RelativityStore.SetVelocityX | src/store/relativityStore.ts:26 | velocityX becomes exactly the given value, unclamped; velocityY and the artwork are unchanged |
| Store.RelativityStore.SetVelocityY | src/store/relativityStore.ts:27 | velocityY becomes exactly the given value, unclamped; velocityX and the artwork are unchanged |
| Store.RelativityStore.SelectArt | src/store/relativityStore.ts:28 | the current artwork becomes the given one; both velocities are unchanged |
| Motion.CapSpeed | src/components/ArtCanvas.tsx:179-180 | the capped speed is at most 0.9999 and at most the magnitude, and is one of the two |
| Motion.CappedSpeedInDomain | src/components/Sidebar.tsx:55-57 | for a magnitude ≥ 0 the capped speed lies in [0, 1), and equals the magnitude whenever that is ≤ 0.9999 |
| Motion.MagnitudeUnique | src/components/ArtCanvas.tsx:178 | a non-negative square root of vx²+vy² is unique, so taking it as a witness is the same as computing it |
| Motion.MagnitudeZeroIff | src/components/ArtCanvas.tsx:178 | the magnitude is 0 exactly when both components are 0 |
| Motion.DirectionIsUnit | src/components/ArtCanvas.tsx:195-196 | dividing both components by a positive magnitude gives a unit vector |
| Motion.Direction | src/components/ArtCanvas.tsx:195-196 | none; specified by `Motion.DirectionIsUnit` |
| Transform.MulIdentity | src/components/ArtCanvas.tsx:170 | the identity is neutral on both sides of a product, so applying a matrix to the reset transform yields that matrix |
| Transform.MotionTransform | src/components/ArtCanvas.tsx:204-213 | none; specified by `Transform.MotionTransformIsContraction` |
| Transform.RotationZ | src/components/ArtCanvas.tsx:205-206 | none; specified by `Transform.RotationInverse` |
| Transform.ScaleX | src/components/ArtCanvas.tsx:207 | none; specified by `Transform.AxisAlignedContraction` |
| Transform.MotionTransformIsContraction | src/components/ArtCanvas.tsx:204-213 | `new Matrix4().multiply(rotateBack).multiply(scale).multiply(rotateToX)` for direction (dx, dy) equals the closed form with diagonal (k·dx²+dy², k·dy²+dx²) and both off-diagonal entries (k−1)·dx·dy |
| Transform.RotationInverse | src/components/ArtCanvas.tsx:205-206 | rotating by θ and by −θ cancel in either order, for a unit direction |
| Transform.ContractsAlongMotion | src/components/ArtCanvas.tsx:205-216 | the contraction maps the unit direction d to k·d |
| Transform.FixesPerpendicular | src/components/ArtCanvas.tsx:205-216 | the contraction leaves (−dy, dx) unchanged |
| Transform.ContractsOnlyAlongMotion | src/components/ArtCanvas.tsx:205-216 | for every vector, the component along d is scaled by k and the component across d is kept |
| Transform.ContractionUnique | src/components/ArtCanvas.tsx:205-213 | any matrix that scales d by k and fixes its perpendicular is the contraction |
| Transform.DeterminedByBasis | src/components/ArtCanvas.tsx:205-213 | two 2×2 transforms that agree on a unit direction and on its perpendicular are equal |
| Transform.AxisAlignedContraction | src/components/ArtCanvas.tsx:207 | for motion along x the contraction is `makeScale(k, 1, 1)` itself |
| Transform.NoContractionAtUnitFactor | src/components/ArtCanvas.tsx:205-213 | with factor 1 the contraction is the identity |
| Transform.ComposedColumnsOrthogonal | src/components/ArtCanvas.tsx:222 | a matrix that `updateMatrix()` composes from a quaternion about z and a scale always has orthogonal columns |
| Transform.Compose | src/components/ArtCanvas.tsx:222 | none; specified by `Transform.ComposedColumnsOrthogonal` and `Transform.ContractionIsNotComposed` |
| Transform.ContractionColumnsMeet | src/components/ArtCanvas.tsx:205-213 | the columns of the contraction by k along a unit (c, s) have dot product (k²−1)·c·s |
| Transform.ContractionNotOrthogonal | src/components/ArtCanvas.tsx:205-213 | for a diagonal unit direction and 0 < k < 1 those columns are not orthogonal |
| Transform.ContractionIsNotComposed | src/components/ArtCanvas.tsx:216-222 | for a diagonal unit direction and 0 < k < 1, no quaternion and scale compose to the contraction |
| Transform.ContractionAtThreeFourFive | src/components/ArtCanvas.tsx:205-213 | at direction (0.6, 0.8) and k = 0.5 the contraction is [[0.82, −0.24], [−0.24, 0.68]], whose columns have dot product −0.36 |
| Transform.ContractionAtHalfLightSpeed | src/components/ArtCanvas.tsx:205-213 | at direction (0.6, 0.8) and k = √0.75, the factor at speed 0.5, the contraction's columns have dot product −0.12 |
| Shader.Fract | src/components/ArtCanvas.tsx:108 | `mod(x, 1.0)` lies in [0, 1) and differs from x by an integer |
| Shader.FractUnique | src/components/ArtCanvas.tsx:108 | any value in [0, 1) that differs from x by an integer is `mod(x, 1.0)` |
| Shader.FractPeriodic | src/components/ArtCanvas.tsx:108 | shifting the hue by a whole turn does not change the wrapped hue |
| Shader.FractKeepsUnitInterval | src/components/ArtCanvas.tsx:108 | a value already in [0, 1) is not changed by the wrap |
| Shader.Beaming | src/components/ArtCanvas.tsx:111 | the boosted value is ≤ 1 and ≤ v·D, and is one of the two |
| Shader.BeamingBounds | src/components/ArtCanvas.tsx:111 | for v in [0, 1] and D > 0 the boosted value is in [0, 1]; for D ≥ 1 it is not darker than v |
| Shader.DopplerHsv | src/components/ArtCanvas.tsx:104-111 | the shifted hue is in [0, 1), a whole number of turns away from hue + shift; saturation is kept; value is exactly v·D when that is ≤ 1 and exactly 1 when it is above, i.e. `min(v·D, 1.0)` |
| Shader.ClampUnit | src/components/ArtCanvas.tsx:80 | `clamp(x, 0, 1)` is in [0, 1], is x inside, 0 below and 1 above |
| Shader.ContrastAroundMidGrey | src/components/ArtCanvas.tsx:73-76 | contrast keeps 0.5 fixed, is the identity at zoom 1, pushes channels away from 0.5 for zoom ≥ 1 and towards it for zoom ≤ 1 |
| Shader.ContrastBoost | src/components/ArtCanvas.tsx:73 | none; specified by `Shader.ContrastAroundMidGrey` |
| Shader.ContrastChannel | src/components/ArtCanvas.tsx:76 | none; specified by `Shader.ContrastAroundMidGrey` |
| Shader.Contrast | src/components/ArtCanvas.tsx:76 | none; specified by `Shader.ContrastAroundMidGrey` and `Shader.CorrectedHsv` |
| Shader.CorrectedHsv | src/components/ArtCanvas.tsx:69-84 | the corrected saturation lies in [0, 1] at every zoom (also below 1), hue and value are those of the contrasted colour, and the boosted saturation is kept when within range, becomes 0 below it and 1 above it, i.e. `clamp(s·boost, 0, 1)` |
| Shader.SaturationBoost | src/components/ArtCanvas.tsx:71 | none; specified by `Shader.CorrectedHsv` |
| Shader.ColorCorrectNeutralAtUnitZoom | src/components/ArtCanvas.tsx:69-84 | at zoom 1 colour correction is just the colour-space round trip |
| Shader.Fragment | src/components/ArtCanvas.tsx:86-120 | outside the unit square the output is (0,0,0,0); inside, its alpha is the sampled texel's alpha |
| Shader.OutOfBounds | src/components/ArtCanvas.tsx:90 | none; specified by `Shader.Fragment` |
| Shader.Sample | src/components/ArtCanvas.tsx:97-101 | none; specified by `Shader.FragmentUsesSampledTier` and `ArtCanvas.FrameSamplesHighResIff` |
| Shader.SamplesHighRes | src/components/ArtCanvas.tsx:97 | none; specified by `Shader.FragmentUsesSampledTier` and `ArtCanvas.FrameSamplesHighResIff` |
| Shader.HueShift | src/components/ArtCanvas.tsx:107 | none; specified by `Shader.DopplerHsv` |
| Shader.ColorCorrect | src/components/ArtCanvas.tsx:69-84 | none; specified by `Shader.CorrectedHsv` and `Shader.ColorCorrectNeutralAtUnitZoom` |
| Shader.FragmentUsesSampledTier | src/components/ArtCanvas.tsx:97-101 | the output depends only on the high-res texel when `useHighRes && zoomLevel > 2`, otherwise only on the base texel |
| ArtCanvas.ZoomLevel | src/components/ArtCanvas.tsx:158-160 | the zoom level is positive and inversely proportional to the camera distance (zoom · distance = 5), and above 1 exactly when the camera is nearer than 5 |
| ArtCanvas.HighResSrc | src/components/ArtCanvas.tsx:142 | none; specified by `ArtCanvas.HighResSrcWithoutJpg`, `ArtCanvas.HighResSrcShape` and `ArtCanvas.HighResSrcInverse` |
| ArtCanvas.HighResSrcWithoutJpg | src/components/ArtCanvas.tsx:142 | an address without ".jpg" is its own high-resolution address |
| ArtCanvas.HighResSrcShape | src/components/ArtCanvas.tsx:142 | otherwise the first ".jpg" becomes "-high-res.jpg", everything else is kept, and the length grows by exactly 9 |
| ArtCanvas.HighResSrcInverse | src/components/ArtCanvas.tsx:142 | replacing the first "-high-res.jpg" by ".jpg" restores the original address, so distinct artworks get distinct high-res addresses |
| ArtCanvas.FrameUniforms | src/components/ArtCanvas.tsx:155-199 | none; specified by `ArtCanvas.FrameSamplesHighResIff`, `ArtCanvas.FrameFactors`, `ArtCanvas.FrameDirection` and `ArtCanvas.FrameForgetsPrevious` |
| ArtCanvas.FrameMatrix | src/components/ArtCanvas.tsx:170-216 | none; specified by `ArtCanvas.FrameMatrixIsContraction` and `ArtCanvas.FrameMatrixContracts` |
| ArtCanvas.FrameSamplesHighResIff | src/components/ArtCanvas.tsx:160-167 | after a frame the high-res map is sampled iff a high-res texture is loaded and the camera is nearer than 2.5 (zoom > 2), and then the map is that texture |
| ArtCanvas.FrameFactors | src/components/ArtCanvas.tsx:178-191 | the frame hands the shader γ and D of the capped speed, which is in [0, 0.9999] and equals the magnitude within the cap; so γ ≥ 1 and D > 0 |
| ArtCanvas.FrameDirection | src/components/ArtCanvas.tsx:193-220 | above 0.001 the direction uniforms are the unit direction of the velocity; at or below it they are (0, 0) |
| ArtCanvas.FrameForgetsPrevious | src/components/ArtCanvas.tsx:155-225 | apart from the base texture and a retained high-res map, the uniforms after a frame do not depend on those before it |
| ArtCanvas.ReciprocalInUnitInterval | src/components/ArtCanvas.tsx:185 | `1 / gamma` lies in (0, 1] for γ ≥ 1 |
| ArtCanvas.FrameMatrixIsContraction | src/components/ArtCanvas.tsx:178-213 | above 0.001 the frame's transform is the closed-form contraction by 1/γ of the capped speed along the velocity's unit direction |
| ArtCanvas.FrameMatrixContracts | src/components/ArtCanvas.tsx:170-216 | at or below 0.001 the transform is the identity; above it, it scales the direction of motion by 1/γ ∈ (0, 1] and fixes the perpendicular axis |
| ArtCanvas.ReciprocalBelowOne | src/components/ArtCanvas.tsx:185 | `1 / gamma` lies strictly inside (0, 1) for γ > 1 |
| ArtCanvas.RebuiltFrameMatrixDiffers | src/components/ArtCanvas.tsx:216-222 | for a velocity with both components non-zero, above 0.001 and with γ > 1, no quaternion and scale that `updateMatrix()` can compose give `FrameMatrix` |
| ArtCanvas.ArtPlane.constructor | src/components/ArtCanvas.tsx:19-30 | the uniforms start at their declared initial values, the transform is the identity and no high-res texture is loaded |
| ArtCanvas.ArtPlane.OnTextureLoaded | src/components/ArtCanvas.tsx:132-139 | the loaded base texture becomes the `map` uniform; nothing else changes |
| ArtCanvas.ArtPlane.OnHighResLoaded | src/components/ArtCanvas.tsx:143-146 | the loaded texture becomes the high-res texture state; uniforms and transform are unchanged |
| ArtCanvas.ArtPlane.OnHighResFailed | src/components/ArtCanvas.tsx:147-150 | a failed load clears the high-res texture state, so the base texture is used |
| ArtCanvas.ArtPlane.ApplyMotion | src/components/ArtCanvas.tsx:193-220 | from the reset transform: above 0.001 the direction uniforms become v/|v| and the transform becomes `rotateBack · scale(1/γ) · rotateToX`; at or below it they become (0, 0) and the transform stays the identity; the high-res state is untouched |
| ArtCanvas.ArtPlane.Frame | src/components/ArtCanvas.tsx:155-216 | without an artwork nothing changes; otherwise the uniforms become `FrameUniforms` of the old ones and the mesh matrix, as `applyMatrix4` leaves it at line 216, becomes `FrameMatrix`, whatever it was before |
| Text.IndexOf | src/components/ArtCanvas.tsx:142 | the result is the first position where the pattern occurs, or none when it occurs nowhere |
| Text.ReplaceFirst | src/components/ArtCanvas.tsx:142 | none; specified by `ArtCanvas.HighResSrcShape` and `ArtCanvas.HighResSrcWithoutJpg` |
| Text.StartsWith | src/components/GalleryPopup.tsx:24 | none; specified by `Gallery.GalleryPopup.HandleFileUpload` |
| Text.Split | src/components/Sidebar.tsx:21 | `split(' ')` yields at least one word and no word contains a space |
| Text.Join | src/components/Sidebar.tsx:23 | none; specified by `Text.JoinSplit` |
| Text.JoinSplit | src/components/Sidebar.tsx:21-23 | `join(' ')` after `split(' ')` gives back the string |
| Text.ToUpper | src/components/Sidebar.tsx:22 | ASCII upper-casing: the result is never a lower-case letter, is upper-case exactly when the input is a letter, changes exactly the lower-case letters, and maps each to the upper-case letter at the same place in the alphabet |
| Text.ToLower | src/components/Sidebar.tsx:22 | ASCII lower-casing: the result is never an upper-case letter, is lower-case exactly when the input is a letter, changes exactly the upper-case letters, and maps each to the lower-case letter at the same place in the alphabet |
| Text.CaseMappingRoundTrip | src/components/Sidebar.tsx:22 | lower-casing an upper-cased lower-case letter gives it back, and upper-casing a lower-cased upper-case letter gives it back |
| Text.LowerAll | src/components/Sidebar.tsx:22 | `toLowerCase` keeps the length and lower-cases each character |
| Text.DecimalString | src/components/GalleryPopup.tsx:34 | a natural number's decimal text is non-empty, all digits, with no leading zero except for 0 itself |
| Text.ParseDecimalString | src/components/GalleryPopup.tsx:34 | reading the decimal text back gives the number |
| Sidebar.FormatArtworkTitle | src/components/Sidebar.tsx:17-24 | none; specified by `Sidebar.FormatArtworkTitleIsTitleCase`, `Sidebar.FormatArtworkTitleShape`, `Sidebar.FormatArtworkTitleWordCase` and `Sidebar.FormatArtworkTitleIdempotent` |
| Sidebar.ReplaceSeparators | src/components/Sidebar.tsx:20 | every '-' and '_' becomes a space, every other character is kept |
| Sidebar.Capitalize | src/components/Sidebar.tsx:22 | a word keeps its length, its first character is upper-cased and the rest lower-cased |
| Sidebar.CapitalizeIsTitleCase | src/components/Sidebar.tsx:22 | on a word without spaces, capitalising is the character-wise Title Case |
| Sidebar.CapitalizedWordsAreTitleCase | src/components/Sidebar.tsx:21-23 | split, capitalise each word and join is the character-wise Title Case of the string |
| Sidebar.CapitalizeAll | src/components/Sidebar.tsx:22 | none; specified by `Sidebar.CapitalizedWordsAreTitleCase` |
| Sidebar.FormatArtworkTitleIsTitleCase | src/components/Sidebar.tsx:17-24 | the formatted title is the Title Case of the title with separators turned into spaces |
| Sidebar.CaseMappingKeepsSpaces | src/components/Sidebar.tsx:22 | case mapping neither creates nor removes spaces |
| Sidebar.FormatArtworkTitleShape | src/components/Sidebar.tsx:20-23 | the formatted title has the input's length, no '-' or '_', and a space exactly where the input had '-', '_' or ' ' |
| Sidebar.FormatArtworkTitleWordCase | src/components/Sidebar.tsx:21-23 | in the output, the first character of each word is upper-cased and the others lower-cased |
| Sidebar.FormatArtworkTitleIdempotent | src/components/Sidebar.tsx:17-24 | formatting a formatted title changes nothing |
| Sidebar.AcceptVelocity | src/components/Sidebar.tsx:71-72 | a typed value is accepted iff it parses to a number in [0, 0.9999] (the handler's own literal, `MaxInputSpeed`), and then it is that number |
| Sidebar.ParticleSpeeds | src/components/Sidebar.tsx:8-14 | every preset speed is in [0, 1); the LHC proton's exceeds 0.9999 |
| Sidebar.Distance | src/components/Sidebar.tsx:64-65 | the distance to a preset is non-negative and is the difference of speeds one way or the other |
| Sidebar.ClosestFrom | src/components/Sidebar.tsx:63-67 | the fold keeps a preset at the least distance, the earliest among equals, because it replaces only on strictly smaller distance |
| Sidebar.Closest | src/components/Sidebar.tsx:63-67 | the reduce picks a preset at minimal distance, and every earlier preset is strictly farther |
| Sidebar.ClosestUnique | src/components/Sidebar.tsx:63-67 | minimal distance plus earliest-on-ties determine the chosen preset |
| Sidebar.ClosestParticle | src/components/Sidebar.tsx:55-67 | the nearest preset to the capped speed is one of the presets |
| Sidebar.ClosestParticleAtRest | src/components/Sidebar.tsx:55-67 | at rest the nearest preset is the commercial jet |
| Sidebar.ClosestParticleAtCap | src/components/Sidebar.tsx:55-67 | at speed 1, capped to 0.9999, the nearest preset is the LHC proton |
| Sidebar.Sidebar.constructor | src/components/Sidebar.tsx:32-34 | the inputs start from the given texts and no particle is selected |
| Sidebar.Sidebar.HandleVelocityInput | src/components/Sidebar.tsx:70-81 | a rejected value changes nothing; an accepted one sets the velocity and input text of its axis only; velocities in [0, 1) stay so |
| Sidebar.Sidebar.HandleParticleSelect | src/components/Sidebar.tsx:84-88 | the particle is marked, velocityX becomes its speed uncapped and velocityY 0; a preset keeps both below light speed |
| Gallery.IsImageType | src/components/GalleryPopup.tsx:24 | none; specified by `Gallery.GalleryPopup.HandleFileUpload` |
| Gallery.StripExtension | src/components/GalleryPopup.tsx:35 | none; specified by `Gallery.StripExtensionSpec`, `Gallery.StripExtensionWithoutDot` and `Gallery.StripExtensionExamples` |
| Gallery.ExtensionFrom | src/components/GalleryPopup.tsx:35 | the leftmost position at which `/\.[^/.]+$/` matches, or none if it matches nowhere |
| Gallery.ExtensionAtUnique | src/components/GalleryPopup.tsx:35 | the expression matches at one position at most |
| Gallery.StripExtensionSpec | src/components/GalleryPopup.tsx:35 | the title is a prefix of the file name; it is the whole name iff nothing matches; otherwise the removed suffix is '.' and ≥ 1 characters none of which is '.' or '/' |
| Gallery.StripExtensionWithoutDot | src/components/GalleryPopup.tsx:35 | a file name without '.' is returned unchanged |
| Gallery.StripExtensionExamples | src/components/GalleryPopup.tsx:35 | "a.tar.gz" → "a.tar", "a." unchanged, ".bashrc" → "", "photo.v2/scan" unchanged |
| Gallery.CustomArtwork | src/components/GalleryPopup.tsx:33-41 | the record has artist "Custom Upload", an id "custom-" followed by digits that read back as the clock value, the stripped file name as title, the data URL as source and the loaded image's dimensions |
| Gallery.GalleryPopup.constructor | src/components/GalleryPopup.tsx:14-15 | no custom image and an empty file input |
| Gallery.GalleryPopup.HandleFileUpload | src/components/GalleryPopup.tsx:19-55 | no file, a non-image MIME type or a failed load changes nothing; otherwise the custom artwork becomes the custom image and the selected artwork and the input is cleared; velocities are never touched |

## Left out

- `rgb2hsv` and `hsv2rgb` (src/components/ArtCanvas.tsx:52-66) are GLSL floating-point code whose round trip holds only approximately. They are the parameter `ColorSpace`, and nothing is assumed about them.
- `log(doppler)` in the hue shift is a parameter `lnDoppler` of the shader model.
- `Math.sqrt` of the velocity is a witness `m` with `m ≥ 0` and `m·m = vx²+vy²` (`Motion.IsMagnitude`). Its uniqueness is proved.
- `calculateGamma` and `calculateDopplerFactor` (src/lib/physics.ts) are arbitrary functions, constrained only by γ ≥ 1 and D > 0 on [0, 1). physics.ts is not part of this model.
- `Math.atan2` and `makeRotationZ` are modelled through the unit direction (cos θ, sin θ) = (dx, dy). The matrices are the x/y block of the 4×4 transform; the z row and column are the identity in every factor.
- ArtPlane.Frame: the mesh matrix is modelled as one 2×2 matrix, as `applyMatrix4` leaves it at src/components/ArtCanvas.tsx:216. The position, quaternion and scale fields of the mesh, three.js's `decompose`, and the final `updateMatrix()`/`updateMatrixWorld()` (lines 222-223) are not modelled. Consequence: the program's final matrix is the one `updateMatrix()` composes from the decomposed fields, a rotation times an axis-aligned scale. For diagonal motion with γ > 1 that is not `FrameMatrix` (`ArtCanvas.RebuiltFrameMatrixDiffers`). Only the shape of the rebuild is modelled (`Transform.Compose`, for any quaternion about z and any scale); which quaternion and scale `decompose` picks is library code.
- ArtPlane.Frame: the camera distance is required to be positive. The orbit controls keep it at least 0.5 and do not rotate, but they are not part of this model.
- Texture loading is asynchronous I/O. It is modelled only by its three callbacks, which take the loaded texture or report failure.
- `fetch('/artworks.json')`, which selects the first artwork, is I/O (src/components/Sidebar.tsx:37-46). Other I/O that is left out:
  - `FileReader`;
  - image decoding;
  - `alert`.
- `Date.now()` and `new Date().getFullYear()` are clock reads, so they are the parameters `now` and `year`.
- `parseFloat` is library parsing. A typed velocity arrives already parsed as `Option<real>`, where `None` stands for NaN.
- `toFixed(4)` is left out for the same reason. The effect that rewrites both inputs from the store (src/components/Sidebar.tsx:48-52) is left out too: the sidebar constructor takes the initial input texts as given.
- Slider handlers pass the slider's value straight to the store setters, which are modelled. The slider's own 0.9999 bound is library UI.
- The orbit controls, raycasting, pointer handling, the `zoomChange` event, the zoom percentage display and the keyboard hint (src/components/ArtCanvas.tsx:237-361) are UI plumbing.
- Text.ToUpper: case mapping covers ASCII letters only. JavaScript's Unicode case mapping, which can change a string's length, is not modelled.
- Sidebar.ClosestParticle: its own contract only says the result is a preset. Minimality and earliest-on-ties are stated by `Sidebar.Closest`, which it applies to the capped speed.
- Number precision is not modelled: JavaScript numbers and GLSL floats are modelled as exact reals. Rounding in the cap, the clamps and the matrices is not captured.
- src/components/PhysicsExplanationPopup.tsx and src/app/page.tsx are static content and layout. They are not part of this model.

## Findings

| source | as written | input that shows it | evidently intended | confidence | as-written member | corrected member |
|---|---|---|---|---|---|---|
| src/components/ArtCanvas.tsx:216-222 | `applyMatrix4(finalMatrix)` stores the contraction, then `updateMatrix()` rebuilds the matrix from its decomposed position, quaternion and scale, a rotation times an axis-aligned scale with orthogonal columns | velocity (0.3, 0.4): direction (0.6, 0.8), speed 0.5, k = 1/γ = √0.75; the contraction's columns have dot product (k²−1)·0.48 = −0.12 ≠ 0, so no rotation-and-scale matrix equals it | the plane is scaled by 1/γ along the direction of motion and kept across it, for every direction | not executed | ArtCanvas.RebuiltFrameMatrixDiffers | ArtCanvas.FrameMatrixContracts |
