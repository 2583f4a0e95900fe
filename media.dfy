// The media-link vocabulary shared by the editor decorations, the image widget
// and the media-info cache: link types, the link record a widget is built from,
// and the host test that recognises the supported cloud services.

module Media {
  import opened Text

  /** `MediaLinkType`. */
  datatype MediaLinkType = Local | Wiki | External | Cloudinary | Bunny | Cloudflare | TwicPics

  /** `MediaLinkInfo`, without the optional dimensions and service metadata. */
  datatype MediaLinkInfo = MediaLinkInfo(originalUrl: string, resolvedUrl: string, linkType: MediaLinkType, altText: string)

  /** The URL names the host of one of the supported services. */
  predicate KnownHost(url: string)
  {
    Contains(url, "cloudinary.com") || Contains(url, "bunny.net") || Contains(url, "b-cdn.net")
    || Contains(url, "cloudflare") || Contains(url, "twicpics.com")
  }

  /** The host checks shared by link-type detection, in their priority order:
      cloudinary, then bunny, then cloudflare, then twicpics, else external. */
  function HostType(url: string): (r: MediaLinkType)
    ensures r in {Cloudinary, Bunny, Cloudflare, TwicPics, External}
    ensures r == External <==> !KnownHost(url)
    ensures r == Cloudinary <==> Contains(url, "cloudinary.com")
    ensures r == Bunny <==> !Contains(url, "cloudinary.com") && (Contains(url, "bunny.net") || Contains(url, "b-cdn.net"))
    ensures r == Cloudflare <==> !Contains(url, "cloudinary.com") && !(Contains(url, "bunny.net") || Contains(url, "b-cdn.net"))
                                 && Contains(url, "cloudflare")
    ensures r == TwicPics <==> !Contains(url, "cloudinary.com") && !(Contains(url, "bunny.net") || Contains(url, "b-cdn.net"))
                               && !Contains(url, "cloudflare") && Contains(url, "twicpics.com")
  {
    if Contains(url, "cloudinary.com") then Cloudinary
    else if Contains(url, "bunny.net") || Contains(url, "b-cdn.net") then Bunny
    else if Contains(url, "cloudflare") then Cloudflare
    else if Contains(url, "twicpics.com") then TwicPics
    else External
  }

  /** `isVideoFile`, shared by the Bunny, Cloudinary and TwicPics services: the MIME
      type names a video. */
  predicate IsVideoType(mimeType: string)
  {
    StartsWith(mimeType, "video/")
  }
}
