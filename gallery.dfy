/**
 * Uploading a custom artwork from the gallery: the image-type check, the
 * title taken from the file name without its extension, and the record
 * built for the upload, which becomes the selected artwork.
 */
module Gallery {
  import opened Options
  import opened Text
  import opened Store

  /** `file.type.startsWith('image/')`. */
  predicate IsImageType(mimeType: string) {
    StartsWith(mimeType, "image/")
  }

  /**
   * The regular expression `/\.[^/.]+$/` matches `name` at `i`: a dot, then
   * one or more characters up to the end, none of them a dot or a slash.
   */
  predicate ExtensionAt(name: string, i: nat) {
    i + 1 < |name| && name[i] == '.' &&
    forall k :: i < k < |name| ==> name[k] != '.' && name[k] != '/'
  }

  /** The leftmost match at or after `from`, in the order the regular-expression search tries. */
  function ExtensionFrom(name: string, from: nat): (r: Option<nat>)
    ensures r.Some? ==> from <= r.value && ExtensionAt(name, r.value)
    ensures r.None? ==> forall i: nat :: from <= i ==> !ExtensionAt(name, i)
    decreases |name| - from
  {
    if from >= |name| then None
    else if ExtensionAt(name, from) then Some(from)
    else ExtensionFrom(name, from + 1)
  }

  /** `name.replace(/\.[^/.]+$/, '')`. */
  function StripExtension(name: string): string {
    match ExtensionFrom(name, 0)
    case None => name
    case Some(i) => name[..i]
  }

  /** The expression can match at one position at most. */
  lemma ExtensionAtUnique(name: string, i: nat, j: nat)
    requires ExtensionAt(name, i) && ExtensionAt(name, j)
    ensures i == j
  {
  }

  /**
   * The title is a prefix of the file name. It is the whole name exactly
   * when no extension matches; otherwise what was cut off is one extension:
   * a dot followed by one or more characters, none a dot or a slash.
   */
  lemma StripExtensionSpec(name: string)
    ensures StartsWith(name, StripExtension(name))
    ensures StripExtension(name) == name <==> forall i: nat :: !ExtensionAt(name, i)
    ensures StripExtension(name) != name ==> ExtensionAt(name, |StripExtension(name)|)
  {
  }

  /** A file name without a dot is its own title. */
  lemma StripExtensionWithoutDot(name: string)
    requires forall k :: 0 <= k < |name| ==> name[k] != '.'
    ensures StripExtension(name) == name
  {
    StripExtensionSpec(name);
  }

  /** Only the last extension goes; a bare trailing dot stays; a dot file loses everything. */
  lemma StripExtensionExamples()
    ensures StripExtension("a.tar.gz") == "a.tar"
    ensures StripExtension("a.") == "a."
    ensures StripExtension(".bashrc") == ""
    ensures StripExtension("photo.v2/scan") == "photo.v2/scan"
  {
    StripExtensionSpec("a.tar.gz");
    assert ExtensionAt("a.tar.gz", 5);
    StripExtensionSpec("a.");
    StripExtensionSpec(".bashrc");
    assert ExtensionAt(".bashrc", 0);
    var path := "photo.v2/scan";
    forall i: nat
      ensures !ExtensionAt(path, i)
    {
      if i < 5 || 5 < i < |path| {
        assert path[i] != '.';
      } else if i == 5 {
        assert path[8] == '/';
      }
    }
    StripExtensionSpec(path);
  }

  /** What the program knows of the chosen file. */
  datatype File = File(name: string, mimeType: string)

  /** The file read as a data URL and the loaded image's dimensions. */
  datatype LoadedImage = LoadedImage(dataUrl: string, width: nat, height: nat)

  /**
   * The `customArt` record: "Custom Upload" as the artist, an id "custom-"
   * followed by the decimal clock reading `now`, the file name without its
   * extension as the title, and the loaded image's data and dimensions.
   */
  function CustomArtwork(file: File, image: LoadedImage, now: nat, year: int): (a: Artwork)
    ensures a.artist == "Custom Upload"
    ensures StartsWith(a.id, "custom-")
    ensures (forall k :: 7 <= k < |a.id| ==> IsDigit(a.id[k])) && ParseDecimal(a.id[7..]) == now
    ensures a.title == StripExtension(file.name) && StartsWith(file.name, a.title)
    ensures a.year == year && a.src == image.dataUrl
    ensures a.widthPx == image.width && a.heightPx == image.height
  {
    ParseDecimalString(now);
    StripExtensionSpec(file.name);
    var id := "custom-" + DecimalString(now);
    assert id[7..] == DecimalString(now);
    Artwork(id, StripExtension(file.name), "Custom Upload", year, image.dataUrl, image.width, image.height)
  }

  class GalleryPopup {
    /** The store whose `selectArt` is the popup's `onSelectArt`. */
    const store: RelativityStore
    var customImage: Option<Artwork>
    /** The `value` of the hidden file input. */
    var inputValue: string

    constructor (store: RelativityStore)
      ensures this.store == store && customImage == None && inputValue == ""
    {
      this.store, customImage, inputValue := store, None, "";
    }

    /**
     * `handleFileUpload`, with the reader and image callbacks run to the end:
     * `loaded` is `None` when reading or decoding fails. No file, a file that
     * is not an image, or a failed load changes nothing; otherwise the upload
     * becomes the custom image and the selected artwork, and the input is
     * cleared so that the same file can be chosen again.
     */
    method HandleFileUpload(file: Option<File>, loaded: Option<LoadedImage>, now: nat, year: int)
      modifies this, store
      ensures file.None? || !IsImageType(file.value.mimeType) || loaded.None? ==>
        customImage == old(customImage) && inputValue == old(inputValue) &&
        store.currentArt == old(store.currentArt)
      ensures file.Some? && IsImageType(file.value.mimeType) && loaded.Some? ==>
        customImage == Some(CustomArtwork(file.value, loaded.value, now, year)) &&
        store.currentArt == customImage && inputValue == ""
      ensures store.velocityX == old(store.velocityX) && store.velocityY == old(store.velocityY)
    {
      if file.None? {
        return;
      }
      if !IsImageType(file.value.mimeType) {
        return;
      }
      if loaded.Some? {
        var customArt := CustomArtwork(file.value, loaded.value, now, year);
        customImage := Some(customArt);
        store.SelectArt(customArt);
        inputValue := "";
      }
    }
  }
}
