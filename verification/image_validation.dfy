/**
 * The pre-submit check of an image URL: blank is fine, otherwise an http(s) URL whose
 * path mentions an image extension and whose HEAD reply is an OK reply with an `image/` content type.
 */
module ImageValidation {
  import opened Wrappers
  import opened JsText

  /** What `new URL(url)` exposes that the check reads. */
  datatype ParsedUrl = ParsedUrl(protocol: string, pathname: string)

  /** The outcome of the `HEAD` request: a reply with its `content-type`, or a rejected fetch. */
  datatype HeadReply = HeadReply(ok: bool, contentType: Option<string>) | NetworkError

  /** The verdict, and whether the `HEAD` request was sent to reach it. */
  datatype ImageCheck = ImageCheck(valid: bool, headSent: bool)

  const ImageExtensions: seq<string> := [".jpg", ".jpeg", ".png", ".gif", ".webp", ".svg"]

  /** The lower-cased path contains one of the extensions anywhere, not only at the end. */
  predicate HasImageExtension(pathname: string) {
    exists e :: e in ImageExtensions && Contains(Lower(pathname), e)
  }

  /** An OK reply whose (non-empty) content type starts with `image/`. */
  predicate AcceptsImage(head: HeadReply) {
    && head.HeadReply?
    && head.ok
    && head.contentType.Some? && head.contentType.value != ""
    && StartsWith(head.contentType.value, "image/")
  }

  /**
   * `validateImageUrl`, with the URL parser's result (`None` when it throws) and the HEAD
   * reply given as inputs. Every failure, thrown or not, gives false.
   */
  function ValidateImageUrl(url: string, parsed: Option<ParsedUrl>, head: HeadReply): (c: ImageCheck)
    ensures IsBlank(url) ==> c == ImageCheck(true, false)
    ensures !IsBlank(url) && parsed.None? ==> c == ImageCheck(false, false)
    ensures !IsBlank(url) && parsed.Some? && !StartsWith(parsed.value.protocol, "http") ==> c == ImageCheck(false, false)
    ensures !IsBlank(url) && parsed.Some? && !HasImageExtension(parsed.value.pathname) ==> c == ImageCheck(false, false)
    ensures c.headSent <==> !IsBlank(url) && parsed.Some? && StartsWith(parsed.value.protocol, "http") && HasImageExtension(parsed.value.pathname)
    ensures c.headSent ==> (c.valid <==> AcceptsImage(head))
  {
    TrimEmptyIffBlank(url);
    if url == "" || Trim(url) == "" then ImageCheck(true, false)
    else match parsed
      case None => ImageCheck(false, false)
      case Some(urlObj) =>
        if !StartsWith(urlObj.protocol, "http") then ImageCheck(false, false)
        else if !HasImageExtension(urlObj.pathname) then ImageCheck(false, false)
        else match head
          case NetworkError => ImageCheck(false, true)
          case HeadReply(ok, contentType) =>
            ImageCheck(if ok && contentType.Some? && contentType.value != "" then StartsWith(contentType.value, "image/") else false, true)
  }

  /** A verdict of "valid" always means: blank, or every check passed and the server confirmed an image. */
  lemma ValidMeansBlankOrConfirmed(url: string, parsed: Option<ParsedUrl>, head: HeadReply)
    ensures ValidateImageUrl(url, parsed, head).valid <==>
      IsBlank(url) || (parsed.Some? && StartsWith(parsed.value.protocol, "http")
        && HasImageExtension(parsed.value.pathname) && AcceptsImage(head))
  {
  }

  /** The extension test is a substring test: an upper-case extension in the middle of the path passes. */
  lemma ExtensionAnywhereInPath()
    ensures HasImageExtension("/photo.PNG/view")
  {
    var p := Lower("/photo.PNG/view");
    assert p[6..10] == ".png";
    assert OccursAt(p, ".png", 6);
    ContainsIffOccurs(p, ".png");
    assert ".png" in ImageExtensions;
  }

  /** `hasImageChanged`: the two values differ. */
  function HasImageChanged(originalValue: string, currentValue: string): (changed: bool)
    ensures changed <==> originalValue != currentValue
  {
    originalValue != currentValue
  }
}
