/**
 * Media-file detection: the category named by a file's base name is kept
 * only when the file's extension is one of those allowed for that category.
 */
module MediaDetect {
  import opened PegasusAssets

  const ImageExts: seq<string> := ["png", "jpg", "webp", "apng"]
  const VideoExts: seq<string> := ["webm", "mp4", "avi"]
  const AudioExts: seq<string> := ["mp3", "ogg", "wav"]

  /**
   * `allowed_asset_exts`: no extension for `Unknown`, the video extensions
   * for videos, the audio extensions for music, the image extensions for
   * every other category.
   */
  function AllowedAssetExts(t: AssetType): (r: seq<string>)
    ensures t == Unknown <==> r == []
    ensures t == Video ==> r == VideoExts
    ensures t == Music ==> r == AudioExts
    ensures t != Unknown && t != Video && t != Music ==> r == ImageExts
  {
    match t
    case Unknown => []
    case Video => VideoExts
    case Music => AudioExts
    case _ => ImageExts
  }

  /**
   * `detect_asset_type`: the category of `basename` when `ext` is allowed
   * for it (a case-sensitive comparison), `Unknown` otherwise.
   */
  function DetectAssetType(basename: string, ext: string): (r: AssetType)
    ensures r != Unknown <==> StrToType(basename) != Unknown && ext in AllowedAssetExts(StrToType(basename))
    ensures r != Unknown ==> r == StrToType(basename) && ext in AllowedAssetExts(r)
  {
    var t := StrToType(basename);
    if ext in AllowedAssetExts(t) then t else Unknown
  }

  /** No extension is allowed for two of the image, video and audio groups. */
  lemma ExtensionGroupsDisjoint(a: AssetType, b: AssetType, ext: string)
    requires ext in AllowedAssetExts(a) && ext in AllowedAssetExts(b)
    ensures a == Video <==> b == Video
    ensures a == Music <==> b == Music
  {
  }

  /**
   * Extensions are compared case-sensitively: an upper-case `PNG` is never
   * allowed, so such a file is never detected.
   */
  lemma UpperCaseExtensionRejected(basename: string)
    ensures DetectAssetType(basename, "PNG") == Unknown
  {
    assert "PNG" !in ImageExts && "PNG" !in VideoExts && "PNG" !in AudioExts;
  }
}
