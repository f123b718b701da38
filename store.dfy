/**
 * The process-wide relativity store: the user-controlled velocity vector
 * and the selected artwork, with one setter per field.
 */
module Store {
  import opened Options

  /** An entry of the gallery (or a custom upload). */
  datatype Artwork = Artwork(
    id: string,
    title: string,
    artist: string,
    year: int,
    src: string,
    widthPx: int,
    heightPx: int)

  class RelativityStore {
    var velocityX: real
    var velocityY: real
    var currentArt: Option<Artwork>

    /** The store starts at rest with nothing selected. */
    constructor ()
      ensures velocityX == 0.0 && velocityY == 0.0 && currentArt == None
    {
      velocityX, velocityY, currentArt := 0.0, 0.0, None;
    }

    /** Stores `v` exactly as given (no clamping) and touches nothing else. */
    method SetVelocityX(v: real)
      modifies this
      ensures velocityX == v
      ensures velocityY == old(velocityY) && currentArt == old(currentArt)
    {
      velocityX := v;
    }

    /** Stores `v` exactly as given (no clamping) and touches nothing else. */
    method SetVelocityY(v: real)
      modifies this
      ensures velocityY == v
      ensures velocityX == old(velocityX) && currentArt == old(currentArt)
    {
      velocityY := v;
    }

    /** Selects `art`; both velocities are kept. */
    method SelectArt(art: Artwork)
      modifies this
      ensures currentArt == Some(art)
      ensures velocityX == old(velocityX) && velocityY == old(velocityY)
    {
      currentArt := Some(art);
    }
  }
}
