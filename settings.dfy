// The plugin's settings record and its per-service sub-records, with the
// shallow merge that both `Object.assign({}, defaults, saved)` and the object
// spread `{...settings, ...partial}` perform.  A key absent from a partial
// record keeps the old value; a key present replaces the old value wholesale,
// even when what it carries is `undefined` (an optional sub-record set to
// `None`).

module Settings {
  import opened Common

  /** `ICloudinarySettings & { folder }`; a required string that is missing reads as `''`. */
  datatype CloudinarySettings = CloudinarySettings(
    cloudName: string, apiKey: string, apiSecret: string,
    uploadPreset: Option<string>, folder: Option<string>)

  /** `ITwicPicsSettings`. */
  datatype TwicPicsSettings = TwicPicsSettings(domain: string, apiKey: string, path: Option<string>)

  /** `ICloudflareSettings`. */
  datatype CloudflareSettings = CloudflareSettings(
    accountId: string, imagesToken: string,
    deliveryHash: Option<string>, defaultVariant: Option<string>, customDomain: Option<string>)

  /** `IBunnyStorageZone`. */
  datatype StorageZone = StorageZone(
    name: string, accessKey: string, pullZoneUrl: string,
    folders: Option<seq<string>>, customCDN: Option<string>)

  /** `IBunnySettings` as it may come back from the data file: every key may be missing. */
  datatype BunnySettings = BunnySettings(
    storageZones: Option<seq<StorageZone>>, defaultStorageZone: Option<string>, useFolderMapping: Option<bool>)

  /** `IIgnoredFoldersSettings`. */
  datatype IgnoredFoldersSettings = IgnoredFoldersSettings(useNoteFolders: bool)

  /** `features`. */
  datatype Features = Features(imageResize: bool, autoUpload: bool, keepLocalCopy: bool, uploadFolder: string)

  /** `IPluginSettings`, restricted to the keys the modelled operations read. */
  datatype PluginSettings = PluginSettings(
    service: string,
    cloudinary: Option<CloudinarySettings>,
    twicpics: Option<TwicPicsSettings>,
    cloudflare: Option<CloudflareSettings>,
    bunny: Option<BunnySettings>,
    ignoredFolders: seq<string>,
    ignoredFoldersSettings: IgnoredFoldersSettings,
    defaultImageWidth: string,
    features: Features)

  /** `DEFAULT_SETTINGS`: no service and no service sub-record. */
  const Defaults: PluginSettings := PluginSettings(
    "", None, None, None, None, [], IgnoredFoldersSettings(false), "medium",
    Features(true, true, true, ""))

  /** `Partial<IPluginSettings>`: `None` is a missing key, `Some(v)` a present one; for
      the optional sub-records `Some(None)` is a key present with value `undefined`. */
  datatype SettingsPatch = SettingsPatch(
    service: Option<string>,
    cloudinary: Option<Option<CloudinarySettings>>,
    twicpics: Option<Option<TwicPicsSettings>>,
    cloudflare: Option<Option<CloudflareSettings>>,
    bunny: Option<Option<BunnySettings>>,
    ignoredFolders: Option<seq<string>>,
    ignoredFoldersSettings: Option<IgnoredFoldersSettings>,
    defaultImageWidth: Option<string>,
    features: Option<Features>)

  const EmptyPatch: SettingsPatch := SettingsPatch(None, None, None, None, None, None, None, None, None)

  function Pick<T>(p: Option<T>, prev: T): T
  {
    if p.Some? then p.value else prev
  }

  /** `{...s, ...p}`. */
  function Merge(s: PluginSettings, p: SettingsPatch): (r: PluginSettings)
  {
    PluginSettings(
      Pick(p.service, s.service),
      Pick(p.cloudinary, s.cloudinary),
      Pick(p.twicpics, s.twicpics),
      Pick(p.cloudflare, s.cloudflare),
      Pick(p.bunny, s.bunny),
      Pick(p.ignoredFolders, s.ignoredFolders),
      Pick(p.ignoredFoldersSettings, s.ignoredFoldersSettings),
      Pick(p.defaultImageWidth, s.defaultImageWidth),
      Pick(p.features, s.features))
  }

  /** The patch that applies `p` and then `q`: a key of `q` wins over the same key of `p`. */
  function Then(p: SettingsPatch, q: SettingsPatch): SettingsPatch
  {
    SettingsPatch(
      if q.service.Some? then q.service else p.service,
      if q.cloudinary.Some? then q.cloudinary else p.cloudinary,
      if q.twicpics.Some? then q.twicpics else p.twicpics,
      if q.cloudflare.Some? then q.cloudflare else p.cloudflare,
      if q.bunny.Some? then q.bunny else p.bunny,
      if q.ignoredFolders.Some? then q.ignoredFolders else p.ignoredFolders,
      if q.ignoredFoldersSettings.Some? then q.ignoredFoldersSettings else p.ignoredFoldersSettings,
      if q.defaultImageWidth.Some? then q.defaultImageWidth else p.defaultImageWidth,
      if q.features.Some? then q.features else p.features)
  }

  /** The patch that rewrites every key of `s`. */
  function Full(s: PluginSettings): SettingsPatch
  {
    SettingsPatch(Some(s.service), Some(s.cloudinary), Some(s.twicpics), Some(s.cloudflare), Some(s.bunny),
                  Some(s.ignoredFolders), Some(s.ignoredFoldersSettings), Some(s.defaultImageWidth), Some(s.features))
  }

  /** Merging nothing changes nothing; merging twice is merging once; two merges in a
      row are one merge of the combined patch; a full patch ignores the old record. */
  lemma MergeLaws(s: PluginSettings, p: SettingsPatch, q: SettingsPatch, t: PluginSettings)
    ensures Merge(s, EmptyPatch) == s
    ensures Merge(Merge(s, p), p) == Merge(s, p)
    ensures Merge(Merge(s, p), q) == Merge(s, Then(p, q))
    ensures Merge(s, Full(t)) == t
  {
  }

  /** A merged record is the old one exactly when the patch carries only old values. */
  lemma MergeUnchanged(s: PluginSettings, p: SettingsPatch)
    ensures Merge(s, p) == s <==>
      (p.service.None? || p.service.value == s.service) &&
      (p.cloudinary.None? || p.cloudinary.value == s.cloudinary) &&
      (p.twicpics.None? || p.twicpics.value == s.twicpics) &&
      (p.cloudflare.None? || p.cloudflare.value == s.cloudflare) &&
      (p.bunny.None? || p.bunny.value == s.bunny) &&
      (p.ignoredFolders.None? || p.ignoredFolders.value == s.ignoredFolders) &&
      (p.ignoredFoldersSettings.None? || p.ignoredFoldersSettings.value == s.ignoredFoldersSettings) &&
      (p.defaultImageWidth.None? || p.defaultImageWidth.value == s.defaultImageWidth) &&
      (p.features.None? || p.features.value == s.features)
  {
  }
}
