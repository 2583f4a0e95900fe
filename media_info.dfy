// The media-info cache: a dictionary from a link's original URL to its
// `MediaLinkInfo`, mirrored into the plugin's data file after every change,
// filled by upload events and emptied entry by entry by delete events.

module MediaInfo {
  import opened Common
  import opened Text
  import opened Media
  import ImagePath
  import Decorator

  /** `detectMediaType`: a string starting with `http` is classified by its host,
      in the shared priority order; any other string is a wiki link when it starts
      with `[[` or ends with `]]`, and a local file otherwise. */
  function DetectMediaType(url: string): (r: MediaLinkType)
    ensures StartsWith(url, "http") ==> r == HostType(url)
    ensures !StartsWith(url, "http") ==> (r == Wiki <==> StartsWith(url, "[[") || EndsWith(url, "]]"))
    ensures !StartsWith(url, "http") ==> (r == Local <==> !StartsWith(url, "[[") && !EndsWith(url, "]]"))
  {
    if StartsWith(url, "http") then HostType(url)
    else if StartsWith(url, "[[") || EndsWith(url, "]]") then Wiki
    else Local
  }

  lemma PrefixOccurs(s: string, p: string, q: string)
    requires StartsWith(s, p) && StartsWith(p, q)
    ensures StartsWith(s, q)
  {
    assert s[..|q|] == s[..|p|][..|q|];
  }

  /** A prefix makes `includes` true. */
  lemma StartsWithContains(s: string, t: string)
    requires StartsWith(s, t)
    ensures Contains(s, t)
  {
    assert OccursAt(s, t, 0);
  }

  /** A string without the first character of `t` does not include `t`. */
  lemma MissingFirstChar(s: string, t: string)
    requires |t| > 0 && t[0] !in s
    ensures !Contains(s, t)
  {
    forall j | 0 <= j && j + |t| <= |s|
      ensures !OccursAt(s, t, j)
    {
      assert s[j] == s[j..j + |t|][0];
    }
  }

  /** On `http://` and `https://` URLs and on strings that start with `[[`, the
      cache's classification agrees with the one the editor decorations give. */
  lemma DetectAgreesWithDecorations(url: string)
    requires ImagePath.IsUrl(url) || StartsWith(url, "[[")
    ensures DetectMediaType(url) == Decorator.DetectLinkType(url)
  {
    if ImagePath.IsUrl(url) {
      if StartsWith(url, "http://") {
        PrefixOccurs(url, "http://", "http");
      } else {
        PrefixOccurs(url, "https://", "http");
      }
    } else {
      StartsWithContains(url, "[[");
      assert url[0] == '[' by { assert url[..2] == "[["; }
    }
  }

  /** The two classifications differ elsewhere: a bare `http` prefix without a
      scheme separator is an external link to the cache and a local file to the
      decorations, and a string that only ends with `]]` is a wiki link to the
      cache and a local file to the decorations. */
  lemma DetectDiffersFromDecorations()
    ensures DetectMediaType("http") == External && Decorator.DetectLinkType("http") == Local
    ensures DetectMediaType("]]") == Wiki && Decorator.DetectLinkType("]]") == Local
  {
    assert !ImagePath.IsUrl("http");
    MissingFirstChar("http", "[[");
    assert StartsWith("http", "http");
    assert EndsWith("]]", "]]");
  }

  /** The entry an upload event stores: original and resolved URL are the uploaded
      URL, the alt text is the file name, the type is detected from the URL. */
  function UploadedInfo(url: string, fileName: string): (r: MediaLinkInfo)
    ensures r.originalUrl == url && r.resolvedUrl == url
    ensures r.altText == fileName && r.linkType == DetectMediaType(url)
  {
    MediaLinkInfo(url, url, DetectMediaType(url), fileName)
  }

  /** `MediaInfoService`. `store` is the `mediaCache` entry of the plugin's data
      file (`None` when the file has none); `hasPlugin` says whether `setPlugin`
      has been called, without which neither saving nor loading happens. */
  class MediaInfoService {
    var cache: map<string, MediaLinkInfo>
    var hasPlugin: bool
    var store: Option<map<string, MediaLinkInfo>>

    /** The data file holds exactly the cache. */
    ghost predicate Synced()
      reads this
    {
      hasPlugin && store == Some(cache)
    }

    constructor(store: Option<map<string, MediaLinkInfo>>)
      ensures cache == map[] && !hasPlugin && this.store == store
    {
      cache := map[];
      hasPlugin := false;
      this.store := store;
    }

    method SetPlugin()
      modifies this
      ensures hasPlugin && cache == old(cache) && store == old(store)
    {
      hasPlugin := true;
    }

    /** `getMediaInfo`. */
    function Get(url: string): (r: Option<MediaLinkInfo>)
      reads this
      ensures r.Some? <==> url in cache
      ensures r.Some? ==> r.value == cache[url]
    {
      if url in cache then Some(cache[url]) else None
    }

    /** `hasMediaInfo`. */
    predicate Has(url: string)
      reads this
    {
      url in cache
    }

    /** `saveCache`: writes the whole cache when the plugin is known. */
    method SaveCache()
      modifies this
      ensures cache == old(cache) && hasPlugin == old(hasPlugin)
      ensures hasPlugin ==> Synced()
      ensures !hasPlugin ==> store == old(store)
    {
      if hasPlugin {
        store := Some(cache);
      }
    }

    /** `setMediaInfo`: keyed by the original URL, overwriting any earlier entry. */
    method Set(info: MediaLinkInfo)
      modifies this
      ensures Get(info.originalUrl) == Some(info)
      ensures forall u :: u != info.originalUrl ==> Get(u) == old(Get(u))
      ensures hasPlugin == old(hasPlugin)
      ensures hasPlugin ==> Synced()
      ensures !hasPlugin ==> store == old(store)
    {
      cache := cache[info.originalUrl := info];
      SaveCache();
    }

    /** `removeMediaInfo`. */
    method Remove(url: string)
      modifies this
      ensures !Has(url)
      ensures forall u :: u != url ==> Get(u) == old(Get(u))
      ensures hasPlugin == old(hasPlugin)
      ensures hasPlugin ==> Synced()
      ensures !hasPlugin ==> store == old(store)
    {
      cache := cache - {url};
      SaveCache();
    }

    /** `loadCache`: the persisted entries replace the whole cache when the data
        file has them; otherwise (or before `setPlugin`) nothing changes. */
    method LoadCache()
      modifies this
      ensures hasPlugin == old(hasPlugin) && store == old(store)
      ensures hasPlugin && store.Some? ==> cache == store.value && Synced()
      ensures !(hasPlugin && store.Some?) ==> cache == old(cache)
      ensures old(Synced()) ==> cache == old(cache)
    {
      if hasPlugin && store.Some? {
        cache := store.value;
      }
    }

    /** `handleMediaUploaded`. */
    method HandleMediaUploaded(url: string, fileName: string)
      modifies this
      ensures Get(url) == Some(UploadedInfo(url, fileName))
      ensures forall u :: u != url ==> Get(u) == old(Get(u))
      ensures hasPlugin == old(hasPlugin)
      ensures hasPlugin ==> Synced()
      ensures !hasPlugin ==> store == old(store)
    {
      Set(UploadedInfo(url, fileName));
    }

    /** `handleMediaDeleted`: the event's public id is used as the key. */
    method HandleMediaDeleted(publicId: string)
      modifies this
      ensures !Has(publicId)
      ensures forall u :: u != publicId ==> Get(u) == old(Get(u))
      ensures hasPlugin == old(hasPlugin)
      ensures hasPlugin ==> Synced()
      ensures !hasPlugin ==> store == old(store)
    {
      Remove(publicId);
    }
  }

  /** An upload followed by a reload from the data file returns the uploaded entry:
      once the plugin is set, every change is written through. */
  method UploadSurvivesReload(s: MediaInfoService, url: string, fileName: string) returns (r: Option<MediaLinkInfo>)
    requires s.hasPlugin
    modifies s
    ensures r == Some(UploadedInfo(url, fileName))
  {
    s.HandleMediaUploaded(url, fileName);
    s.LoadCache();
    r := s.Get(url);
  }
}
