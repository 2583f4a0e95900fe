// The Bunny.net service: its normalised copy of the settings, the choice of a
// storage zone (by folder mapping, by the default name, or the first zone), the
// CDN base URL of a zone, and the storage path, CDN URL and public id of an
// upload.  The PUT request itself is not modelled: the upload is described by
// the request it would send and the response it builds.

module Bunny {
  import opened Common
  import opened Text
  import opened Settings
  import opened Media
  import ImagePath

  /** The service's `settings` field after normalisation. */
  datatype BunnyConfig = BunnyConfig(storageZones: seq<StorageZone>, defaultStorageZone: string, useFolderMapping: bool)

  const EmptyConfig: BunnyConfig := BunnyConfig([], "", true)

  /** `storageZones || []`, `defaultStorageZone || ''` and `useFolderMapping ?? true`:
      folder mapping is off only when the stored flag is `false`. */
  function Normalize(b: BunnySettings): (r: BunnyConfig)
    ensures b.storageZones.None? ==> r.storageZones == []
    ensures b.storageZones.Some? ==> r.storageZones == b.storageZones.value
    ensures r.defaultStorageZone == "" <==> b.defaultStorageZone.None? || b.defaultStorageZone.value == ""
    ensures !r.useFolderMapping <==> b.useFolderMapping == Some(false)
  {
    BunnyConfig(
      if b.storageZones.Some? then b.storageZones.value else [],
      if b.defaultStorageZone.Some? then b.defaultStorageZone.value else "",
      if b.useFolderMapping.Some? then b.useFolderMapping.value else true)
  }

  /** The configuration the constructor starts from: the normalised sub-record when the
      settings have one, else an empty configuration. */
  function InitialConfig(bunny: Option<BunnySettings>): BunnyConfig
  {
    if bunny.Some? then Normalize(bunny.value) else EmptyConfig
  }

  /** Every zone has a non-empty access key and name. */
  predicate ZonesUsable(zones: seq<StorageZone>)
  {
    forall i :: 0 <= i < |zones| ==> zones[i].accessKey != "" && zones[i].name != ""
  }

  /** `isConfigured`. */
  predicate IsConfigured(cfg: BunnyConfig)
  {
    |cfg.storageZones| > 0 && ZonesUsable(cfg.storageZones)
  }

  /** `zones.find(z => z.name === name)`, as the index of the first zone with that name. */
  function FindByName(zones: seq<StorageZone>, name: string): (r: Option<nat>)
    ensures r.Some? ==> r.value < |zones| && zones[r.value].name == name
    ensures r.Some? ==> forall k :: 0 <= k < r.value ==> zones[k].name != name
    ensures r.None? ==> forall k :: 0 <= k < |zones| ==> zones[k].name != name
  {
    if |zones| == 0 then None
    else if zones[0].name == name then Some(0)
    else
      var rest := FindByName(zones[1..], name);
      if rest.Some? then Some(rest.value + 1) else None
  }

  /** `getDefaultStorageZone`: an error without zones; the zone named by
      `defaultStorageZone` when that name is set and present; otherwise the first zone. */
  function DefaultStorageZone(cfg: BunnyConfig): (r: Result<StorageZone>)
    ensures r.Err? <==> |cfg.storageZones| == 0
    ensures r.Ok? ==> r.value in cfg.storageZones
    ensures r.Ok? && cfg.defaultStorageZone != "" && FindByName(cfg.storageZones, cfg.defaultStorageZone).Some?
            ==> r.value.name == cfg.defaultStorageZone
    ensures r.Ok? && (cfg.defaultStorageZone == "" || FindByName(cfg.storageZones, cfg.defaultStorageZone).None?)
            ==> r.value == cfg.storageZones[0]
  {
    if |cfg.storageZones| == 0 then Err("Aucune zone de stockage configurée")
    else if cfg.defaultStorageZone != "" && FindByName(cfg.storageZones, cfg.defaultStorageZone).Some? then
      Ok(cfg.storageZones[FindByName(cfg.storageZones, cfg.defaultStorageZone).value])
    else Ok(cfg.storageZones[0])
  }

  /** One of the zone's folders contains the path (the shared folder-membership rule). */
  predicate ServesPath(zone: StorageZone, path: string)
  {
    zone.folders.Some? && exists k :: 0 <= k < |zone.folders.value| && ImagePath.InFolder(path, zone.folders.value[k])
  }

  /** The first zone at or after index `i` that serves the path. */
  function FirstServingFrom(zones: seq<StorageZone>, i: nat, path: string): (r: Option<nat>)
    requires i <= |zones|
    ensures r.Some? ==> i <= r.value < |zones| && ServesPath(zones[r.value], path)
    ensures forall k :: i <= k < |zones| && (r.None? || k < r.value) ==> !ServesPath(zones[k], path)
    decreases |zones| - i
  {
    if i == |zones| then None
    else if ServesPath(zones[i], path) then Some(i)
    else FirstServingFrom(zones, i + 1, path)
  }

  /** `getStorageZoneForPath`: without folder mapping or zones, the default zone;
      otherwise the first zone, in list order, one of whose folders contains the path,
      and the default zone when none does. */
  function StorageZoneForPath(cfg: BunnyConfig, path: string): (r: Result<StorageZone>)
  {
    if !cfg.useFolderMapping || |cfg.storageZones| == 0 then DefaultStorageZone(cfg)
    else
      var i := FirstServingFrom(cfg.storageZones, 0, path);
      if i.Some? then Ok(cfg.storageZones[i.value]) else DefaultStorageZone(cfg)
  }

  /** The zone chosen for a path is one of the configured zones; it serves the path
      whenever some zone does and folder mapping is on, and it is the first such zone. */
  lemma StorageZoneForPathChoice(cfg: BunnyConfig, path: string, j: nat)
    requires cfg.useFolderMapping && j < |cfg.storageZones| && ServesPath(cfg.storageZones[j], path)
    ensures StorageZoneForPath(cfg, path).Ok?
    ensures ServesPath(StorageZoneForPath(cfg, path).value, path)
    ensures exists i :: 0 <= i <= j && StorageZoneForPath(cfg, path).value == cfg.storageZones[i]
                        && forall k :: 0 <= k < i ==> !ServesPath(cfg.storageZones[k], path)
  {
    var i := FirstServingFrom(cfg.storageZones, 0, path);
    assert i.Some? && i.value <= j;
  }

  /** A configured service finds a zone for every path, and that zone can authorise the
      request. */
  lemma ConfiguredZoneUsable(cfg: BunnyConfig, path: string)
    ensures IsConfigured(cfg) ==> StorageZoneForPath(cfg, path).Ok? && DefaultStorageZone(cfg).Ok?
    ensures IsConfigured(cfg) ==> StorageZoneForPath(cfg, path).value.accessKey != "" && StorageZoneForPath(cfg, path).value.name != ""
    ensures IsConfigured(cfg) ==> DefaultStorageZone(cfg).value.accessKey != "" && DefaultStorageZone(cfg).value.name != ""
  {
  }

  /** `s.replace(/\/$/, '')`: at most one trailing slash is removed. */
  function DropTrailingSlash(s: string): (r: string)
    ensures |s| > 0 && s[|s| - 1] == '/' ==> r + "/" == s
    ensures !(|s| > 0 && s[|s| - 1] == '/') ==> r == s
  {
    if |s| > 0 && s[|s| - 1] == '/' then s[..|s| - 1] else s
  }

  /** `getCDNUrl`: a non-empty custom CDN wins over the pull-zone URL. */
  function CdnBase(zone: StorageZone): (r: string)
    ensures zone.customCDN.Some? && zone.customCDN.value != "" ==> r == DropTrailingSlash(zone.customCDN.value)
    ensures zone.customCDN.None? || zone.customCDN.value == "" ==> r == DropTrailingSlash(zone.pullZoneUrl)
  {
    if zone.customCDN.Some? && zone.customCDN.value != "" then DropTrailingSlash(zone.customCDN.value)
    else DropTrailingSlash(zone.pullZoneUrl)
  }

  const StorageApi: string := "https://storage.bunnycdn.com"

  /** The PUT request and the response of `uploadImage`/`uploadVideo`. */
  datatype UploadPlan = UploadPlan(
    storageUrl: string, accessKey: string, contentType: string,
    url: string, publicId: string, kind: string, zoneName: string)

  /** `options?.path || \`${Date.now()}-${file.name}\``, under `videos/` for a video. */
  function UploadPath(optionsPath: Option<string>, now: nat, fileName: string, isVideo: bool): (r: string)
    ensures optionsPath.Some? && optionsPath.value != "" ==> r == optionsPath.value
    ensures (optionsPath.None? || optionsPath.value == "") && !isVideo ==> r == NatToString(now) + "-" + fileName
    ensures (optionsPath.None? || optionsPath.value == "") && isVideo ==> r == "videos/" + NatToString(now) + "-" + fileName
  {
    if optionsPath.Some? && optionsPath.value != "" then optionsPath.value
    else if isVideo then "videos/" + NatToString(now) + "-" + fileName
    else NatToString(now) + "-" + fileName
  }

  /** The zone an upload goes to: chosen by the upload path when one is given, else the
      default zone. */
  function UploadZone(cfg: BunnyConfig, optionsPath: Option<string>): (r: Result<StorageZone>)
    ensures IsConfigured(cfg) ==> r.Ok? && r.value.accessKey != "" && r.value.name != ""
  {
    ConfiguredZoneUsable(cfg, if optionsPath.Some? then optionsPath.value else "");
    if optionsPath.Some? && optionsPath.value != "" then StorageZoneForPath(cfg, optionsPath.value)
    else DefaultStorageZone(cfg)
  }

  /** The request and response of an upload of a file of type `mimeType` named
      `fileName` at time `now`. */
  function PlanUpload(cfg: BunnyConfig, mimeType: string, fileName: string, optionsPath: Option<string>, now: nat): (r: Result<UploadPlan>)
    ensures r.Err? <==> !IsConfigured(cfg)
    ensures r.Ok? ==> r.value.accessKey != "" && r.value.zoneName != ""
    ensures r.Ok? ==> r.value.publicId == UploadPath(optionsPath, now, fileName, IsVideoType(mimeType))
    ensures r.Ok? ==> r.value.kind == (if IsVideoType(mimeType) then "video" else "image")
    ensures r.Ok? ==>
              var zone := UploadZone(cfg, optionsPath).value;
              && r.value.storageUrl == StorageApi + ("/" + zone.name + "/" + r.value.publicId)
              && r.value.accessKey == zone.accessKey
              && r.value.zoneName == zone.name
              && r.value.contentType == mimeType
              && r.value.url == CdnBase(zone) + ("/" + r.value.publicId)
  {
    if !IsConfigured(cfg) then Err("Configuration Bunny.net manquante")
    else
      var zone := UploadZone(cfg, optionsPath).value;
      var isVideo := IsVideoType(mimeType);
      var path := UploadPath(optionsPath, now, fileName, isVideo);
      Ok(UploadPlan(StorageApi + ("/" + zone.name + "/" + path), zone.accessKey, mimeType,
                    CdnBase(zone) + ("/" + path), path, if isVideo then "video" else "image", zone.name))
  }

  /** The URL handed back is the chosen zone's CDN base, a slash, and the public id; the
      storage request goes to the same path inside that zone. */
  lemma UploadUrlEndsWithPublicId(cfg: BunnyConfig, mimeType: string, fileName: string, optionsPath: Option<string>, now: nat)
    requires IsConfigured(cfg)
    ensures var p := PlanUpload(cfg, mimeType, fileName, optionsPath, now).value;
            var zone := UploadZone(cfg, optionsPath).value;
            p.url == CdnBase(zone) + ("/" + p.publicId) && EndsWith(p.url, "/" + p.publicId) &&
            EndsWith(p.storageUrl, "/" + zone.name + "/" + p.publicId)
  {
    var p := PlanUpload(cfg, mimeType, fileName, optionsPath, now).value;
    var zone := UploadZone(cfg, optionsPath).value;
    EndsWithAppended(CdnBase(zone), "/" + p.publicId);
    EndsWithAppended(StorageApi, "/" + zone.name + "/" + p.publicId);
  }

  /** `BunnyService`: the normalised settings, replaced on every settings event that
      carries a Bunny sub-record. */
  class BunnyService {
    var config: BunnyConfig

    constructor(bunny: Option<BunnySettings>)
      ensures config == InitialConfig(bunny)
    {
      config := InitialConfig(bunny);
    }

    /** `handleSettingsUpdate`: an event without a Bunny sub-record leaves the
        configuration as it was. */
    method HandleSettingsUpdate(bunny: Option<BunnySettings>)
      modifies this
      ensures bunny.Some? ==> config == Normalize(bunny.value)
      ensures bunny.None? ==> config == old(config)
    {
      if bunny.Some? {
        config := Normalize(bunny.value);
      }
    }

    /** `getStorageZoneForPath`, with its nested loops and early return. */
    method GetStorageZoneForPath(path: string) returns (r: Result<StorageZone>)
      ensures r == StorageZoneForPath(config, path)
    {
      if !config.useFolderMapping || |config.storageZones| == 0 {
        return DefaultStorageZone(config);
      }
      var zones := config.storageZones;
      var i := 0;
      while i < |zones|
        invariant 0 <= i <= |zones|
        invariant FirstServingFrom(zones, 0, path) == FirstServingFrom(zones, i, path)
      {
        var zone := zones[i];
        if zone.folders.Some? {
          var folders := zone.folders.value;
          var j := 0;
          while j < |folders|
            invariant 0 <= j <= |folders|
            invariant forall k :: 0 <= k < j ==> !ImagePath.InFolder(path, folders[k])
          {
            if ImagePath.InFolder(path, folders[j]) {
              assert ServesPath(zone, path);
              return Ok(zone);
            }
            j := j + 1;
          }
        }
        i := i + 1;
      }
      return DefaultStorageZone(config);
    }

    /** `upload`: refuses without a usable configuration, then picks the zone and
        builds the request and the response. */
    method Upload(mimeType: string, fileName: string, optionsPath: Option<string>, now: nat) returns (r: Result<UploadPlan>)
      ensures r == PlanUpload(config, mimeType, fileName, optionsPath, now)
    {
      if !IsConfigured(config) {
        return Err("Configuration Bunny.net manquante");
      }
      var zone: Result<StorageZone>;
      if optionsPath.Some? && optionsPath.value != "" {
        zone := GetStorageZoneForPath(optionsPath.value);
      } else {
        zone := DefaultStorageZone(config);
      }
      assert zone == UploadZone(config, optionsPath);
      var isVideo := IsVideoType(mimeType);
      var path := UploadPath(optionsPath, now, fileName, isVideo);
      var z := zone.value;
      r := Ok(UploadPlan(StorageApi + ("/" + z.name + "/" + path), z.accessKey, mimeType,
                         CdnBase(z) + ("/" + path), path, if isVideo then "video" else "image", z.name));
    }
  }
}
