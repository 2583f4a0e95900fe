// `MediaServiceFactory`: which upload service the plugin uses for given
// settings.  A cloud service is chosen only when its settings are complete;
// otherwise, and for any service name it does not know, the factory falls
// back to local storage.

module Factory {
  import opened Common
  import opened Settings
  import Cloudinary
  import Bunny

  /** The services the factory can hand out. */
  datatype ServiceKind = LocalKind | CloudinaryKind | CloudflareKind | BunnyKind

  /** The completeness test `getService` applies to the Cloudinary sub-record. */
  predicate CloudinaryComplete(c: Option<CloudinarySettings>)
  {
    !(c.None? || c.value.cloudName == "" || c.value.apiKey == ""
      || (c.value.apiSecret == "" && (c.value.uploadPreset.None? || c.value.uploadPreset.value == "")))
  }

  /** The completeness test applied to the Cloudflare sub-record. */
  predicate CloudflareComplete(c: Option<CloudflareSettings>)
  {
    c.Some? && c.value.accountId != "" && c.value.imagesToken != ""
  }

  /** The completeness test applied to the Bunny sub-record: at least one storage zone,
      and every zone has an access key and a name. */
  predicate BunnyComplete(b: Option<BunnySettings>)
  {
    b.Some? && b.value.storageZones.Some? && |b.value.storageZones.value| > 0
    && forall i :: 0 <= i < |b.value.storageZones.value| ==>
         b.value.storageZones.value[i].accessKey != "" && b.value.storageZones.value[i].name != ""
  }

  /** `getService` once the factory is initialised. */
  function SelectService(s: PluginSettings, forceLocal: bool): (r: ServiceKind)
    ensures forceLocal || s.service == "local" ==> r == LocalKind
    ensures s.service !in {"cloudinary", "cloudflare", "bunny"} ==> r == LocalKind
  {
    if forceLocal || s.service == "local" then LocalKind
    else if s.service == "cloudinary" then
      if CloudinaryComplete(s.cloudinary) then CloudinaryKind else LocalKind
    else if s.service == "cloudflare" then
      if CloudflareComplete(s.cloudflare) then CloudflareKind else LocalKind
    else if s.service == "bunny" then
      if BunnyComplete(s.bunny) then BunnyKind else LocalKind
    else LocalKind
  }

  /** Cloudinary is handed out exactly when it is selected and its own service
      considers itself configured. */
  lemma SelectsCloudinary(s: PluginSettings, forceLocal: bool)
    ensures SelectService(s, forceLocal) == CloudinaryKind <==>
            !forceLocal && s.service == "cloudinary" && Cloudinary.IsConfigured(s.cloudinary)
  {
  }

  /** Bunny is handed out exactly when it is selected and the configuration the Bunny
      service builds from the same settings is configured. */
  lemma SelectsBunny(s: PluginSettings, forceLocal: bool)
    ensures SelectService(s, forceLocal) == BunnyKind <==>
            !forceLocal && s.service == "bunny" && Bunny.IsConfigured(Bunny.InitialConfig(s.bunny))
  {
    if s.bunny.Some? && s.bunny.value.storageZones.None? {
      assert Bunny.InitialConfig(s.bunny).storageZones == [];
    }
  }

  /** Cloudflare is handed out exactly when it is selected with an account id and a
      token. */
  lemma SelectsCloudflare(s: PluginSettings, forceLocal: bool)
    ensures SelectService(s, forceLocal) == CloudflareKind <==>
            !forceLocal && s.service == "cloudflare" && s.cloudflare.Some?
            && s.cloudflare.value.accountId != "" && s.cloudflare.value.imagesToken != ""
  {
  }

  /** TwicPics is never handed out, however complete its settings. */
  lemma TwicPicsFallsBackToLocal(s: PluginSettings, forceLocal: bool)
    requires s.service == "twicpics"
    ensures SelectService(s, forceLocal) == LocalKind
  {
  }

  /** The factory: `app` is set by `initialize` and cleared by `cleanup`. */
  class MediaServiceFactory {
    var initialized: bool

    constructor()
      ensures !initialized
    {
      initialized := false;
    }

    method Initialize()
      modifies this
      ensures initialized
    {
      initialized := true;
    }

    method Cleanup()
      modifies this
      ensures !initialized
    {
      initialized := false;
    }

    /** `getService`: refused before `initialize`. */
    method GetService(s: PluginSettings, forceLocal: bool) returns (r: Result<ServiceKind>)
      ensures r.Err? <==> !initialized
      ensures r.Ok? ==> r.value == SelectService(s, forceLocal)
    {
      if !initialized {
        return Err("MediaServiceFactory non initialisé");
      }
      if forceLocal || s.service == "local" {
        return Ok(LocalKind);
      }
      if s.service == "cloudinary" {
        r := Ok(if CloudinaryComplete(s.cloudinary) then CloudinaryKind else LocalKind);
      } else if s.service == "cloudflare" {
        r := Ok(if CloudflareComplete(s.cloudflare) then CloudflareKind else LocalKind);
      } else if s.service == "bunny" {
        r := Ok(if BunnyComplete(s.bunny) then BunnyKind else LocalKind);
      } else {
        r := Ok(LocalKind);
      }
    }
  }
}
