/**
 * The artwork plane's per-frame driver: it derives the zoom level and the
 * texture tier from the camera, caps the speed, feeds the relativistic
 * factors and the direction of motion to the shader, and rebuilds the
 * mesh transform from scratch every frame. Also the address of the
 * high-resolution variant of an artwork and the texture-load callbacks.
 */
module ArtCanvas {
  import opened Options
  import opened Text
  import opened Store
  import opened Motion
  import opened Transform
  import opened Shader

  /** The camera distance at which the zoom level is 1. */
  const BaseDistance: real := 5.0

  /** `baseDistance / camera.position.z`. */
  function ZoomLevel(cameraZ: real): (zoom: real)
    requires cameraZ > 0.0
    ensures zoom > 0.0 && zoom * cameraZ == BaseDistance
    ensures zoom > 1.0 <==> cameraZ < BaseDistance
  {
    BaseDistance / cameraZ
  }

  const HighResSuffix: string := "-high-res.jpg"

  /** `src.replace('.jpg', '-high-res.jpg')`: only the first ".jpg" is replaced. */
  function HighResSrc(src: string): string {
    ReplaceFirst(src, ".jpg", HighResSuffix)
  }

  /** An address without ".jpg" is its own high-resolution address. */
  lemma HighResSrcWithoutJpg(src: string)
    requires forall j: nat :: !OccursAt(src, ".jpg", j)
    ensures HighResSrc(src) == src
  {
  }

  /**
   * Otherwise the first ".jpg" becomes "-high-res.jpg" and the rest is
   * kept, so the address grows by exactly 9 characters.
   */
  lemma HighResSrcShape(src: string, i: nat)
    requires OccursAt(src, ".jpg", i) && forall j: nat :: j < i ==> !OccursAt(src, ".jpg", j)
    ensures HighResSrc(src) == src[..i] + HighResSuffix + src[i + 4..]
    ensures |HighResSrc(src)| == |src| + 9
  {
  }

  /** Every occurrence of "-high-res.jpg" carries a ".jpg" 9 characters further on. */
  lemma SuffixCarriesJpg(s: string, j: nat)
    requires OccursAt(s, HighResSuffix, j)
    ensures OccursAt(s, ".jpg", j + 9)
  {
    assert s[j + 9..j + 13] == s[j..j + 13][9..13];
  }

  /**
   * In the high-resolution address, no "-high-res.jpg" starts before the
   * one that replaced the first ".jpg" at `i`.
   */
  lemma NoEarlierSuffix(src: string, i: nat, j: nat)
    requires OccursAt(src, ".jpg", i) && forall k: nat :: k < i ==> !OccursAt(src, ".jpg", k)
    requires j < i
    ensures !OccursAt(src[..i] + HighResSuffix + src[i + 4..], HighResSuffix, j)
  {
    var r := src[..i] + HighResSuffix + src[i + 4..];
    if j + 13 <= |r| {
      var w := r[j..j + 13];
      if j + 13 <= i {
        // The window lies in the untouched prefix, which has no ".jpg".
        assert r[..i] == src[..i];
        assert w[9..13] == r[j + 9..j + 13];
        assert r[j + 9..j + 13] == r[..i][j + 9..j + 13];
        assert src[j + 9..j + 13] == src[..i][j + 9..j + 13];
        assert !OccursAt(src, ".jpg", j + 9);
        assert w[9..13] != HighResSuffix[9..13];
      } else if j + 9 < i {
        // The window's ".jpg" would straddle the '-' at `i`.
        assert w[i - j] == r[i] == '-';
        assert HighResSuffix[i - j] != '-';
      } else {
        // The window's '.' would fall on a character of "-high-res".
        assert w[9] == r[j + 9] == HighResSuffix[j + 9 - i];
        assert HighResSuffix[j + 9 - i] != '.';
      }
    }
  }

  /** The high-resolution address determines the original: replacing back restores it. */
  lemma {:induction false} HighResSrcInverse(src: string)
    ensures ReplaceFirst(HighResSrc(src), HighResSuffix, ".jpg") == src
  {
    match IndexOf(src, ".jpg")
    case None =>
      forall j: nat ensures !OccursAt(src, HighResSuffix, j) {
        if OccursAt(src, HighResSuffix, j) {
          SuffixCarriesJpg(src, j);
        }
      }
    case Some(i) =>
      var r := src[..i] + HighResSuffix + src[i + 4..];
      assert HighResSrc(src) == r;
      assert r[i..i + 13] == HighResSuffix;
      assert OccursAt(r, HighResSuffix, i);
      forall j: nat | j < i ensures !OccursAt(r, HighResSuffix, j) {
        NoEarlierSuffix(src, i, j);
      }
      assert IndexOf(r, HighResSuffix) == Some(i);
      assert r[..i] == src[..i];
      assert r[i + 13..] == src[i + 4..];
      assert src == src[..i] + ".jpg" + src[i + 4..] by {
        assert src[i..i + 4] == ".jpg";
        assert src == src[..i] + src[i..i + 4] + src[i + 4..];
      }
  }

  /**
   * The uniforms after one frame, from those before it: zoom level and
   * texture tier from the camera, velocity, factors of the capped speed,
   * and the direction of motion (zero at or below the threshold).
   */
  function FrameUniforms(prev: Uniforms, vx: real, vy: real, cameraZ: real,
                         highResTexture: Option<Texture>, m: real, physics: Physics): Uniforms
    requires cameraZ > 0.0 && m >= 0.0
  {
    var zoom := ZoomLevel(cameraZ);
    var capped := CapSpeed(m);
    prev.(zoomLevel := zoom,
          useHighRes := highResTexture.Some? && zoom > HighResZoom,
          highResMap := if highResTexture.Some? then highResTexture else prev.highResMap,
          velocityX := vx,
          velocityY := vy,
          gamma := physics.gamma(capped),
          doppler := physics.doppler(capped),
          directionX := if m > DirectionThreshold then Direction(vx, vy, m).x else 0.0,
          directionY := if m > DirectionThreshold then Direction(vx, vy, m).y else 0.0)
  }

  /**
   * The mesh matrix that `applyMatrix4` leaves after one frame: the product
   * `rotateBack · scale(1 / gamma) · rotateToX` applied to the reset
   * identity above the threshold, the identity at or below it. The previous
   * frame's transform plays no part.
   */
  function FrameMatrix(vx: real, vy: real, m: real, physics: Physics): Mat2
    requires IsMagnitude(vx, vy, m) && Admissible(physics)
  {
    if m > DirectionThreshold then
      CappedSpeedInDomain(m);
      MotionTransform(Direction(vx, vy, m), 1.0 / physics.gamma(CapSpeed(m)))
    else Identity
  }

  /**
   * The high-resolution texture is sampled exactly when one is loaded and
   * the camera is closer than 2.5 units (zoom level above 2), and then the
   * sampled map is the component's current high-res state.
   */
  lemma FrameSamplesHighResIff(prev: Uniforms, vx: real, vy: real, cameraZ: real,
                               highResTexture: Option<Texture>, m: real, physics: Physics)
    requires cameraZ > 0.0 && m >= 0.0
    ensures SamplesHighRes(FrameUniforms(prev, vx, vy, cameraZ, highResTexture, m, physics))
            <==> highResTexture.Some? && cameraZ < 2.5
    ensures SamplesHighRes(FrameUniforms(prev, vx, vy, cameraZ, highResTexture, m, physics))
            ==> FrameUniforms(prev, vx, vy, cameraZ, highResTexture, m, physics).highResMap == highResTexture
  {
    var zoom := ZoomLevel(cameraZ);
    assert zoom * cameraZ == BaseDistance;
    if cameraZ < 2.5 {
      assert zoom * cameraZ < zoom * 2.5;
    } else {
      assert zoom * cameraZ >= zoom * 2.5;
    }
  }

  /**
   * The factors handed to the shader are those of the capped speed, which
   * lies in [0, 0.9999] and equals the magnitude whenever that is within the
   * cap; so the Lorentz factor is at least 1 and the Doppler factor positive.
   */
  lemma FrameFactors(prev: Uniforms, vx: real, vy: real, cameraZ: real,
                     highResTexture: Option<Texture>, m: real, physics: Physics)
    requires cameraZ > 0.0 && IsMagnitude(vx, vy, m) && Admissible(physics)
    ensures var u := FrameUniforms(prev, vx, vy, cameraZ, highResTexture, m, physics);
      u.gamma == physics.gamma(CapSpeed(m)) && u.doppler == physics.doppler(CapSpeed(m)) &&
      u.gamma >= 1.0 && u.doppler > 0.0
  {
    CappedSpeedInDomain(m);
  }

  /**
   * Above the threshold the shader receives the unit direction of the
   * velocity; at or below it the direction is (0, 0).
   */
  lemma FrameDirection(prev: Uniforms, vx: real, vy: real, cameraZ: real,
                       highResTexture: Option<Texture>, m: real, physics: Physics)
    requires cameraZ > 0.0 && IsMagnitude(vx, vy, m)
    ensures var u := FrameUniforms(prev, vx, vy, cameraZ, highResTexture, m, physics);
      if m > DirectionThreshold then
        u.directionX * u.directionX + u.directionY * u.directionY == 1.0 &&
        u.directionX * m == vx && u.directionY * m == vy
      else
        u.directionX == 0.0 && u.directionY == 0.0
  {
    if m > DirectionThreshold {
      DirectionIsUnit(vx, vy, m);
    }
  }

  /**
   * A frame forgets the previous one: apart from the base texture and a
   * retained high-resolution texture, the uniforms it produces do not
   * depend on those it started from.
   */
  lemma FrameForgetsPrevious(p1: Uniforms, p2: Uniforms, vx: real, vy: real, cameraZ: real,
                             highResTexture: Option<Texture>, m: real, physics: Physics)
    requires cameraZ > 0.0 && m >= 0.0
    requires p1.baseMap == p2.baseMap
    requires highResTexture.None? ==> p1.highResMap == p2.highResMap
    ensures FrameUniforms(p1, vx, vy, cameraZ, highResTexture, m, physics)
         == FrameUniforms(p2, vx, vy, cameraZ, highResTexture, m, physics)
  {
  }

  /** The reciprocal of a Lorentz factor lies in (0, 1]. */
  lemma ReciprocalInUnitInterval(g: real)
    requires g >= 1.0
    ensures 0.0 < 1.0 / g <= 1.0
  {
    var k := 1.0 / g;
    assert k * g == 1.0;
    assert k > 0.0;
    assert k * 1.0 <= k * g;
  }

  /** Above the threshold the frame's transform is the contraction by `1 / gamma` along the direction of motion. */
  lemma FrameMatrixIsContraction(vx: real, vy: real, m: real, physics: Physics)
    requires IsMagnitude(vx, vy, m) && Admissible(physics) && m > DirectionThreshold
    ensures CapSpeed(m) < 1.0 && physics.gamma(CapSpeed(m)) >= 1.0
    ensures FrameMatrix(vx, vy, m, physics) ==
      Contraction(Direction(vx, vy, m), 1.0 / physics.gamma(CapSpeed(m)))
  {
    CappedSpeedInDomain(m);
    MotionTransformIsContraction(Direction(vx, vy, m), 1.0 / physics.gamma(CapSpeed(m)));
  }

  /**
   * Above the threshold the frame's transform contracts the plane by
   * `1 / gamma` (a factor in (0, 1]) along the direction of motion and
   * keeps the perpendicular axis; at or below it the transform is the
   * identity.
   */
  lemma FrameMatrixContracts(vx: real, vy: real, m: real, physics: Physics)
    requires IsMagnitude(vx, vy, m) && Admissible(physics)
    ensures m <= DirectionThreshold ==> FrameMatrix(vx, vy, m, physics) == Identity
    ensures m > DirectionThreshold ==>
      var d := Direction(vx, vy, m);
      var k := 1.0 / physics.gamma(CapSpeed(m));
      IsUnit(d) && 0.0 < k <= 1.0 &&
      Apply(FrameMatrix(vx, vy, m, physics), d) == Scale(k, d) &&
      Apply(FrameMatrix(vx, vy, m, physics), Perpendicular(d)) == Perpendicular(d)
  {
    if m > DirectionThreshold {
      var d := Direction(vx, vy, m);
      FrameMatrixIsContraction(vx, vy, m, physics);
      var k := 1.0 / physics.gamma(CapSpeed(m));
      ReciprocalInUnitInterval(physics.gamma(CapSpeed(m)));
      DirectionIsUnit(vx, vy, m);
      ContractsAlongMotion(d, k);
      FixesPerpendicular(d, k);
    }
  }

  /** The reciprocal of a Lorentz factor above 1 lies strictly inside (0, 1). */
  lemma ReciprocalBelowOne(g: real)
    requires g > 1.0
    ensures 0.0 < 1.0 / g < 1.0
  {
    ReciprocalInUnitInterval(g);
    var k := 1.0 / g;
    assert k * g == 1.0;
    assert k * 1.0 < k * g;
  }

  /** A velocity with two non-zero components has a diagonal direction. */
  lemma DiagonalDirection(vx: real, vy: real, m: real)
    requires m > 0.0 && vx != 0.0 && vy != 0.0
    ensures Direction(vx, vy, m).x != 0.0 && Direction(vx, vy, m).y != 0.0
  {
    var d := Direction(vx, vy, m);
    assert d.x * m == vx && d.y * m == vy;
  }

  /**
   * The transform as src/components/ArtCanvas.tsx:216-222 leaves it. After
   * `applyMatrix4` decomposes the product into position, quaternion and
   * scale, `updateMatrix()` rebuilds the matrix from them as a `Compose`.
   * For diagonal motion with a Lorentz factor above 1, no quaternion and
   * scale compose to the contraction, so the final matrix is not
   * `FrameMatrix`: the rebuild discards the contraction's shear.
   */
  lemma RebuiltFrameMatrixDiffers(vx: real, vy: real, m: real, physics: Physics)
    requires IsMagnitude(vx, vy, m) && Admissible(physics) && m > DirectionThreshold
    requires vx != 0.0 && vy != 0.0 && physics.gamma(CapSpeed(m)) > 1.0
    ensures forall qz, qw, sx, sy :: Compose(qz, qw, sx, sy) != FrameMatrix(vx, vy, m, physics)
  {
    FrameMatrixIsContraction(vx, vy, m, physics);
    var d, k := Direction(vx, vy, m), 1.0 / physics.gamma(CapSpeed(m));
    DirectionIsUnit(vx, vy, m);
    DiagonalDirection(vx, vy, m);
    ReciprocalBelowOne(physics.gamma(CapSpeed(m)));
    forall qz, qw, sx, sy ensures Compose(qz, qw, sx, sy) != FrameMatrix(vx, vy, m, physics) {
      ContractionIsNotComposed(d, k, qz, qw, sx, sy);
    }
  }

  /** The artwork plane: its shader uniforms, its mesh transform and its texture state. */
  class ArtPlane {
    var uniforms: Uniforms
    /**
     * The x/y block of the mesh matrix as `applyMatrix4` leaves it at
     * src/components/ArtCanvas.tsx:216, before `updateMatrix()` rebuilds it
     * (see `RebuiltFrameMatrixDiffers`).
     */
    var matrix: Mat2
    /** The component's `highResTexture` state, written by the load callbacks. */
    var highResTexture: Option<Texture>

    constructor ()
      ensures uniforms == InitialUniforms && matrix == Identity && highResTexture == None
    {
      uniforms, matrix, highResTexture := InitialUniforms, Identity, None;
    }

    /** The base texture finished loading: the callback sets the `map` uniform. */
    method OnTextureLoaded(t: Texture)
      modifies this
      ensures uniforms == old(uniforms).(baseMap := Some(t))
      ensures matrix == old(matrix) && highResTexture == old(highResTexture)
    {
      uniforms := uniforms.(baseMap := Some(t));
    }

    /** The high-resolution texture finished loading. */
    method OnHighResLoaded(t: Texture)
      modifies this
      ensures highResTexture == Some(t)
      ensures uniforms == old(uniforms) && matrix == old(matrix)
    {
      highResTexture := Some(t);
    }

    /** The high-resolution texture failed to load: fall back to the base texture. */
    method OnHighResFailed()
      modifies this
      ensures highResTexture == None
      ensures uniforms == old(uniforms) && matrix == old(matrix)
    {
      highResTexture := None;
    }

    /**
     * The part of a frame that depends on the direction of motion: above the
     * threshold the unit direction goes to the shader and the contraction by
     * `invGamma` along it is applied to the transform; at or below it the
     * direction is (0, 0) and the transform is left alone.
     */
    method ApplyMotion(vx: real, vy: real, m: real, invGamma: real)
      requires m >= 0.0 && matrix == Identity
      modifies this
      ensures highResTexture == old(highResTexture)
      ensures m > DirectionThreshold ==>
        uniforms == old(uniforms).(directionX := Direction(vx, vy, m).x, directionY := Direction(vx, vy, m).y) &&
        matrix == MotionTransform(Direction(vx, vy, m), invGamma)
      ensures m <= DirectionThreshold ==>
        uniforms == old(uniforms).(directionX := 0.0, directionY := 0.0) && matrix == old(matrix)
    {
      if m > DirectionThreshold {
        var d := Direction(vx, vy, m);
        uniforms := uniforms.(directionX := d.x, directionY := d.y);
        var finalMatrix := MotionTransform(d, invGamma);
        MulIdentity(finalMatrix);
        matrix := Mul(finalMatrix, matrix);
      } else {
        uniforms := uniforms.(directionX := 0.0, directionY := 0.0);
      }
    }

    /**
     * One frame. Nothing happens until an artwork is selected. Otherwise the
     * uniforms are updated one by one, the mesh transform is reset to the
     * identity, and the contraction is applied when the speed is above the
     * threshold: the new transform does not depend on the old one.
     */
    method Frame(store: RelativityStore, cameraZ: real, m: real, physics: Physics)
      requires cameraZ > 0.0
      requires IsMagnitude(store.velocityX, store.velocityY, m)
      requires Admissible(physics)
      modifies this
      ensures highResTexture == old(highResTexture)
      ensures store.currentArt.None? ==> uniforms == old(uniforms) && matrix == old(matrix)
      ensures store.currentArt.Some? ==>
        uniforms == FrameUniforms(old(uniforms), store.velocityX, store.velocityY, cameraZ,
                                  highResTexture, m, physics)
      ensures store.currentArt.Some? ==>
        matrix == FrameMatrix(store.velocityX, store.velocityY, m, physics)
    {
      if store.currentArt.Some? {
        var vx, vy, loaded := store.velocityX, store.velocityY, highResTexture;
        var zoom := BaseDistance / cameraZ;
        uniforms := uniforms.(zoomLevel := zoom);
        uniforms := uniforms.(useHighRes := loaded.Some? && zoom > HighResZoom);
        if loaded.Some? {
          uniforms := uniforms.(highResMap := loaded);
        }

        // Reset the mesh transform so that nothing accumulates across frames.
        matrix := Identity;

        var capped := CapSpeed(m);
        CappedSpeedInDomain(m);
        var gamma := physics.gamma(capped);
        var doppler := physics.doppler(capped);
        var invGamma := 1.0 / gamma;

        uniforms := uniforms.(velocityX := vx, velocityY := vy);
        uniforms := uniforms.(gamma := gamma, doppler := doppler);

        ApplyMotion(vx, vy, m, invGamma);
      }
    }
  }
}
