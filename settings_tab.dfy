// The settings tab's edits to the plugin settings: the generic shallow update
// every control goes through, the per-service updates that first give a
// missing sub-record its defaults, the storage-zone list of the Bunny
// service (remove a zone, remove a folder from a zone, add a zone), the
// ignored-folder list and the service switch.  The lists a control acts on are
// the ones in the current settings: the tab is redrawn after every edit.

module SettingsTab {
  import opened Common
  import opened Settings
  import Bunny
  import Factory

  // ---------------------------------------------------------------- service sub-records

  /** `Partial<ICloudinarySettings & { folder }>`: `None` is a missing key; for the
      optional fields `Some(None)` is a key present with value `undefined`. */
  datatype CloudinaryPatch = CloudinaryPatch(
    cloudName: Option<string>, apiKey: Option<string>, apiSecret: Option<string>,
    uploadPreset: Option<Option<string>>, folder: Option<Option<string>>)

  datatype TwicPicsPatch = TwicPicsPatch(domain: Option<string>, apiKey: Option<string>, path: Option<Option<string>>)

  datatype CloudflarePatch = CloudflarePatch(
    accountId: Option<string>, imagesToken: Option<string>,
    deliveryHash: Option<Option<string>>, defaultVariant: Option<Option<string>>, customDomain: Option<Option<string>>)

  datatype BunnyPatch = BunnyPatch(
    storageZones: Option<Option<seq<StorageZone>>>, defaultStorageZone: Option<Option<string>>,
    useFolderMapping: Option<Option<bool>>)

  /** The records a missing sub-record is initialised with before an update. */
  const CloudinaryDefaults: CloudinarySettings := CloudinarySettings("", "", "", Some(""), Some(""))
  const TwicPicsDefaults: TwicPicsSettings := TwicPicsSettings("", "", Some(""))
  const CloudflareDefaults: CloudflareSettings := CloudflareSettings("", "", Some(""), Some(""), Some(""))
  const BunnyDefaults: BunnySettings := BunnySettings(Some([]), Some(""), Some(true))

  function OrElse<T>(o: Option<T>, d: T): T
  {
    if o.Some? then o.value else d
  }

  function MergeCloudinary(c: CloudinarySettings, p: CloudinaryPatch): CloudinarySettings
  {
    CloudinarySettings(Pick(p.cloudName, c.cloudName), Pick(p.apiKey, c.apiKey), Pick(p.apiSecret, c.apiSecret),
                       Pick(p.uploadPreset, c.uploadPreset), Pick(p.folder, c.folder))
  }

  function MergeTwicPics(c: TwicPicsSettings, p: TwicPicsPatch): TwicPicsSettings
  {
    TwicPicsSettings(Pick(p.domain, c.domain), Pick(p.apiKey, c.apiKey), Pick(p.path, c.path))
  }

  function MergeCloudflare(c: CloudflareSettings, p: CloudflarePatch): CloudflareSettings
  {
    CloudflareSettings(Pick(p.accountId, c.accountId), Pick(p.imagesToken, c.imagesToken),
                       Pick(p.deliveryHash, c.deliveryHash), Pick(p.defaultVariant, c.defaultVariant),
                       Pick(p.customDomain, c.customDomain))
  }

  function MergeBunny(b: BunnySettings, p: BunnyPatch): BunnySettings
  {
    BunnySettings(Pick(p.storageZones, b.storageZones), Pick(p.defaultStorageZone, b.defaultStorageZone),
                  Pick(p.useFolderMapping, b.useFolderMapping))
  }

  /** `updateCloudinarySettings` and its three siblings: the sub-record, or its defaults
      when it is missing, merged with the patch, then merged into the settings. */
  function UpdateCloudinary(s: PluginSettings, p: CloudinaryPatch): PluginSettings
  {
    Merge(s, EmptyPatch.(cloudinary := Some(Some(MergeCloudinary(OrElse(s.cloudinary, CloudinaryDefaults), p)))))
  }

  function UpdateTwicPics(s: PluginSettings, p: TwicPicsPatch): PluginSettings
  {
    Merge(s, EmptyPatch.(twicpics := Some(Some(MergeTwicPics(OrElse(s.twicpics, TwicPicsDefaults), p)))))
  }

  function UpdateCloudflare(s: PluginSettings, p: CloudflarePatch): PluginSettings
  {
    Merge(s, EmptyPatch.(cloudflare := Some(Some(MergeCloudflare(OrElse(s.cloudflare, CloudflareDefaults), p)))))
  }

  function UpdateBunny(s: PluginSettings, p: BunnyPatch): PluginSettings
  {
    Merge(s, EmptyPatch.(bunny := Some(Some(MergeBunny(OrElse(s.bunny, BunnyDefaults), p)))))
  }

  /** A sub-record update touches that sub-record only: the key it sets takes the new
      value, the keys it does not set keep theirs (or the default when the sub-record
      was missing), and every other setting is unchanged. */
  lemma UpdateCloudinaryOnly(s: PluginSettings, p: CloudinaryPatch)
    ensures UpdateCloudinary(s, p).cloudinary.Some?
    ensures UpdateCloudinary(s, p) == s.(cloudinary := UpdateCloudinary(s, p).cloudinary)
    ensures p.cloudName.Some? ==> UpdateCloudinary(s, p).cloudinary.value.cloudName == p.cloudName.value
    ensures p.cloudName.None? && s.cloudinary.Some? ==> UpdateCloudinary(s, p).cloudinary.value.cloudName == s.cloudinary.value.cloudName
    ensures p.cloudName.None? && s.cloudinary.None? ==> UpdateCloudinary(s, p).cloudinary.value.cloudName == ""
    ensures p.uploadPreset.Some? ==> UpdateCloudinary(s, p).cloudinary.value.uploadPreset == p.uploadPreset.value
    ensures p.uploadPreset.None? && s.cloudinary.None? ==> UpdateCloudinary(s, p).cloudinary.value.uploadPreset == Some("")
  {
  }

  lemma UpdateBunnyOnly(s: PluginSettings, p: BunnyPatch)
    ensures UpdateBunny(s, p).bunny.Some?
    ensures UpdateBunny(s, p) == s.(bunny := UpdateBunny(s, p).bunny)
    ensures p.storageZones.Some? ==> UpdateBunny(s, p).bunny.value.storageZones == p.storageZones.value
    ensures p.storageZones.None? && s.bunny.None? ==> UpdateBunny(s, p).bunny.value.storageZones == Some([])
    ensures p.defaultStorageZone.None? && s.bunny.Some? ==>
              UpdateBunny(s, p).bunny.value.defaultStorageZone == s.bunny.value.defaultStorageZone
  {
  }

  // ---------------------------------------------------------------- storage zones

  /** `this.plugin.settings.bunny?.storageZones || []`. */
  function Zones(s: PluginSettings): seq<StorageZone>
  {
    if s.bunny.Some? && s.bunny.value.storageZones.Some? then s.bunny.value.storageZones.value else []
  }

  /** `this.plugin.settings.bunny?.defaultStorageZone`. */
  function DefaultZone(s: PluginSettings): Option<string>
  {
    if s.bunny.Some? then s.bunny.value.defaultStorageZone else None
  }

  /** The default zone is unset, empty, or the name of a listed zone. */
  predicate DefaultNamesZone(s: PluginSettings)
  {
    var d := DefaultZone(s);
    d.None? || d.value == "" || exists z :: z in Zones(s) && z.name == d.value
  }

  /** The trash button of the zone at `index`: the zone is spliced out, and the default
      moves to the first remaining zone (or `''`) when it named the removed zone. */
  function RemoveZone(s: PluginSettings, index: nat): (r: PluginSettings)
    requires index < |Zones(s)|
    ensures Zones(r) == Zones(s)[..index] + Zones(s)[index + 1..]
    ensures DefaultZone(s) == Some(Zones(s)[index].name) ==>
              DefaultZone(r) == Some(if |Zones(r)| > 0 then Zones(r)[0].name else "")
    ensures DefaultZone(s) != Some(Zones(s)[index].name) ==> DefaultZone(r) == DefaultZone(s)
    ensures r.(bunny := s.bunny) == s
  {
    var zones := Zones(s);
    var newZones := zones[..index] + zones[index + 1..];
    var newDefault := if DefaultZone(s) == Some(zones[index].name)
                      then Some(if |newZones| > 0 then newZones[0].name else "")
                      else DefaultZone(s);
    UpdateBunny(s, BunnyPatch(Some(Some(newZones)), Some(newDefault), None))
  }

  /** Removing a zone removes that zone and nothing else. */
  lemma RemoveZoneIsPermutation(s: PluginSettings, index: nat)
    requires index < |Zones(s)|
    ensures multiset(Zones(RemoveZone(s, index))) + multiset{Zones(s)[index]} == multiset(Zones(s))
    ensures |Zones(RemoveZone(s, index))| == |Zones(s)| - 1
  {
    var zones := Zones(s);
    assert zones == zones[..index] + [zones[index]] + zones[index + 1..];
  }

  /** `zone.folders?.filter(f => f !== folder)`. */
  function Without(folders: seq<string>, folder: string): (r: seq<string>)
    ensures folder !in r
    ensures forall f :: f in r <==> f in folders && f != folder
    ensures |r| <= |folders|
  {
    if |folders| == 0 then []
    else if folders[0] == folder then Without(folders[1..], folder)
    else [folders[0]] + Without(folders[1..], folder)
  }

  /** `storageZones.map(z => z.name === zone.name ? updatedZone : z)`. */
  function ReplaceByName(zones: seq<StorageZone>, name: string, updated: StorageZone): (r: seq<StorageZone>)
    ensures |r| == |zones|
    ensures forall i :: 0 <= i < |zones| ==> r[i] == (if zones[i].name == name then updated else zones[i])
  {
    if |zones| == 0 then [] else [if zones[0].name == name then updated else zones[0]] + ReplaceByName(zones[1..], name, updated)
  }

  /** The remove button of `folder` under the zone at `index`. */
  function RemoveFolder(s: PluginSettings, index: nat, folder: string): (r: PluginSettings)
    requires index < |Zones(s)|
  {
    var zone := Zones(s)[index];
    var updated := zone.(folders := if zone.folders.Some? then Some(Without(zone.folders.value, folder)) else None);
    UpdateBunny(s, BunnyPatch(Some(Some(ReplaceByName(Zones(s), zone.name, updated))), None, None))
  }

  /** The folder leaves the clicked zone; zones with another name are unchanged; a zone
      sharing the clicked zone's name becomes a copy of the clicked zone. */
  lemma RemoveFolderEffect(s: PluginSettings, index: nat, folder: string)
    requires index < |Zones(s)|
    ensures var r := RemoveFolder(s, index, folder);
            |Zones(r)| == |Zones(s)|
            && (Zones(s)[index].folders.Some? ==> Zones(r)[index].folders == Some(Without(Zones(s)[index].folders.value, folder)))
            && (forall i :: 0 <= i < |Zones(s)| ==> Zones(r)[i].name == Zones(s)[i].name)
            && (forall i :: 0 <= i < |Zones(s)| && Zones(s)[i].name != Zones(s)[index].name ==> Zones(r)[i] == Zones(s)[i])
            && (forall i :: 0 <= i < |Zones(s)| && Zones(s)[i].name == Zones(s)[index].name ==> Zones(r)[i] == Zones(r)[index])
            && r.(bunny := s.bunny) == s
            && DefaultZone(r) == DefaultZone(s)
  {
  }

  /** The zone the add dialog builds: the selected folder as its only folder, and no
      custom CDN when that field is empty. */
  function NewZone(name: string, accessKey: string, pullZoneUrl: string, customCdn: string, folderPath: string): StorageZone
  {
    StorageZone(name, accessKey, pullZoneUrl, Some([folderPath]), if customCdn == "" then None else Some(customCdn))
  }

  /** The add button of the dialog: nothing happens unless name, access key and pull-zone
      URL are all filled in; the zone is appended, and becomes the default when it is the
      only zone. */
  function AddZone(s: PluginSettings, name: string, accessKey: string, pullZoneUrl: string, customCdn: string,
                   folderPath: string): (r: PluginSettings)
    ensures name == "" || accessKey == "" || pullZoneUrl == "" ==> r == s
    ensures name != "" && accessKey != "" && pullZoneUrl != "" ==>
              Zones(r) == Zones(s) + [NewZone(name, accessKey, pullZoneUrl, customCdn, folderPath)]
              && DefaultZone(r) == (if |Zones(s)| == 0 then Some(name) else DefaultZone(s))
              && r.(bunny := s.bunny) == s
  {
    if name == "" || accessKey == "" || pullZoneUrl == "" then s
    else
      var newZones := Zones(s) + [NewZone(name, accessKey, pullZoneUrl, customCdn, folderPath)];
      UpdateBunny(s, BunnyPatch(Some(Some(newZones)), Some(if |newZones| == 1 then Some(name) else DefaultZone(s)), None))
  }

  /** Removing a zone keeps the default zone naming a listed zone (or unset or empty). */
  lemma RemoveZoneKeepsDefault(s: PluginSettings, index: nat)
    requires DefaultNamesZone(s) && index < |Zones(s)|
    ensures DefaultNamesZone(RemoveZone(s, index))
  {
    var d := DefaultZone(s);
    var r := RemoveZone(s, index);
    if d.Some? && d.value != "" && d != Some(Zones(s)[index].name) {
      var z :| z in Zones(s) && z.name == d.value;
      var k :| 0 <= k < |Zones(s)| && Zones(s)[k] == z;
      if k < index {
        assert Zones(r)[k] == z;
      } else {
        assert k != index;
        assert Zones(r)[k - 1] == z;
      }
    } else if d == Some(Zones(s)[index].name) && |Zones(r)| > 0 {
      assert Zones(r)[0] in Zones(r);
    }
  }

  /** Removing a folder from a zone keeps the default zone naming a listed zone. */
  lemma RemoveFolderKeepsDefault(s: PluginSettings, index: nat, folder: string)
    requires DefaultNamesZone(s) && index < |Zones(s)|
    ensures DefaultNamesZone(RemoveFolder(s, index, folder))
  {
    var d := DefaultZone(s);
    RemoveFolderEffect(s, index, folder);
    var q := RemoveFolder(s, index, folder);
    if d.Some? && d.value != "" {
      var z :| z in Zones(s) && z.name == d.value;
      var k :| 0 <= k < |Zones(s)| && Zones(s)[k] == z;
      assert Zones(q)[k].name == d.value;
      assert Zones(q)[k] in Zones(q);
    }
  }

  /** Adding a zone keeps the default zone naming a listed zone. */
  lemma AddZoneKeepsDefault(s: PluginSettings, name: string, accessKey: string, pullZoneUrl: string,
                            customCdn: string, folderPath: string)
    requires DefaultNamesZone(s)
    ensures DefaultNamesZone(AddZone(s, name, accessKey, pullZoneUrl, customCdn, folderPath))
  {
    var d := DefaultZone(s);
    var a := AddZone(s, name, accessKey, pullZoneUrl, customCdn, folderPath);
    if name != "" && accessKey != "" && pullZoneUrl != "" {
      var nz := NewZone(name, accessKey, pullZoneUrl, customCdn, folderPath);
      assert nz in Zones(a);
      if |Zones(s)| > 0 && d.Some? && d.value != "" {
        var z :| z in Zones(s) && z.name == d.value;
        assert z in Zones(a);
      }
    }
  }

  /** A non-empty default that names a listed zone is the zone the Bunny service uses
      when no folder decides. */
  lemma DefaultZoneIsUsed(s: PluginSettings)
    requires DefaultNamesZone(s) && DefaultZone(s).Some? && DefaultZone(s).value != ""
    ensures Bunny.DefaultStorageZone(Bunny.InitialConfig(s.bunny)).Ok?
    ensures Bunny.DefaultStorageZone(Bunny.InitialConfig(s.bunny)).value.name == DefaultZone(s).value
  {
    var cfg := Bunny.InitialConfig(s.bunny);
    assert cfg.storageZones == Zones(s);
    assert cfg.defaultStorageZone == DefaultZone(s).value;
  }

  // ---------------------------------------------------------------- ignored folders

  predicate NoDuplicates(folders: seq<string>)
  {
    forall i, j :: 0 <= i < j < |folders| ==> folders[i] != folders[j]
  }

  /** The folder menu of the ignored-folder list: a folder already listed is not added
      again. */
  function AddIgnoredFolder(s: PluginSettings, path: string): (r: PluginSettings)
    ensures path in r.ignoredFolders
    ensures forall f :: f in r.ignoredFolders <==> f in s.ignoredFolders || f == path
    ensures NoDuplicates(s.ignoredFolders) ==> NoDuplicates(r.ignoredFolders)
    ensures r == s.(ignoredFolders := r.ignoredFolders)
  {
    if path in s.ignoredFolders then s
    else Merge(s, EmptyPatch.(ignoredFolders := Some(s.ignoredFolders + [path])))
  }

  /** The trash button of the ignored folder at `index`. */
  function RemoveIgnoredFolder(s: PluginSettings, index: nat): (r: PluginSettings)
    requires index < |s.ignoredFolders|
    ensures |r.ignoredFolders| == |s.ignoredFolders| - 1
    ensures r == s.(ignoredFolders := r.ignoredFolders)
  {
    Merge(s, EmptyPatch.(ignoredFolders := Some(s.ignoredFolders[..index] + s.ignoredFolders[index + 1..])))
  }

  /** Removal takes out exactly the clicked entry; without duplicates the folder is then
      no longer ignored, and adding it back undoes the removal up to order. */
  lemma RemoveIgnoredFolderEffect(s: PluginSettings, index: nat)
    requires index < |s.ignoredFolders|
    ensures multiset(RemoveIgnoredFolder(s, index).ignoredFolders) + multiset{s.ignoredFolders[index]} == multiset(s.ignoredFolders)
    ensures NoDuplicates(s.ignoredFolders) ==> s.ignoredFolders[index] !in RemoveIgnoredFolder(s, index).ignoredFolders
    ensures NoDuplicates(s.ignoredFolders) ==>
              multiset(AddIgnoredFolder(RemoveIgnoredFolder(s, index), s.ignoredFolders[index]).ignoredFolders)
              == multiset(s.ignoredFolders)
  {
    var fs := s.ignoredFolders;
    var rest := fs[..index] + fs[index + 1..];
    assert fs == fs[..index] + [fs[index]] + fs[index + 1..];
    if NoDuplicates(fs) {
      forall k | 0 <= k < |rest| ensures rest[k] != fs[index] {
        if k < index {
          assert rest[k] == fs[k];
        } else {
          assert rest[k] == fs[k + 1];
        }
      }
    }
  }

  // ---------------------------------------------------------------- service switch

  /** The service drop-down: the new service, and every service sub-record reset. */
  function SwitchService(s: PluginSettings, value: string): (r: PluginSettings)
    ensures r.service == value
    ensures r.cloudinary.None? && r.twicpics.None? && r.cloudflare.None? && r.bunny.None?
    ensures r.ignoredFolders == s.ignoredFolders && r.features == s.features && r.defaultImageWidth == s.defaultImageWidth
  {
    Merge(s, EmptyPatch.(service := Some(value), cloudinary := Some(None), twicpics := Some(None),
                         cloudflare := Some(None), bunny := Some(None)))
  }

  /** Right after a switch the factory hands out the local service, whatever service was
      chosen, until that service's settings are filled in. */
  lemma SwitchFallsBackToLocal(s: PluginSettings, value: string, forceLocal: bool)
    ensures Factory.SelectService(SwitchService(s, value), forceLocal) == Factory.LocalKind
  {
  }

  /** Switching to Cloudinary and then entering a cloud name, an API key and a secret
      makes the factory hand out Cloudinary. */
  lemma SwitchThenFillSelectsCloudinary(s: PluginSettings, cloudName: string, apiKey: string, apiSecret: string)
    requires cloudName != "" && apiKey != "" && apiSecret != ""
    ensures var s1 := SwitchService(s, "cloudinary");
            var s2 := UpdateCloudinary(s1, CloudinaryPatch(Some(cloudName), None, None, None, None));
            var s3 := UpdateCloudinary(s2, CloudinaryPatch(None, Some(apiKey), None, None, None));
            var s4 := UpdateCloudinary(s3, CloudinaryPatch(None, None, Some(apiSecret), None, None));
            Factory.SelectService(s4, false) == Factory.CloudinaryKind
  {
    var s1 := SwitchService(s, "cloudinary");
    var s2 := UpdateCloudinary(s1, CloudinaryPatch(Some(cloudName), None, None, None, None));
    var s3 := UpdateCloudinary(s2, CloudinaryPatch(None, Some(apiKey), None, None, None));
    var s4 := UpdateCloudinary(s3, CloudinaryPatch(None, None, Some(apiSecret), None, None));
    assert s4.cloudinary == Some(CloudinarySettings(cloudName, apiKey, apiSecret, Some(""), Some("")));
    Factory.SelectsCloudinary(s4, false);
  }

  // ---------------------------------------------------------------- the tab

  /** The tab's view of the plugin: its settings and what was last written to the data
      file. */
  class SettingsTab {
    var settings: PluginSettings
    var saved: Option<PluginSettings>

    constructor(settings: PluginSettings)
      ensures this.settings == settings && saved.None?
    {
      this.settings := settings;
      saved := None;
    }

    /** `updateSettings`: the merge is written to the data file, then becomes the
        settings. */
    method UpdateSettings(p: SettingsPatch)
      modifies this
      ensures settings == Merge(old(settings), p) && saved == Some(settings)
    {
      var merged := Merge(settings, p);
      saved := Some(merged);
      settings := merged;
    }

    method UpdateCloudinarySettings(p: CloudinaryPatch)
      modifies this
      ensures settings == UpdateCloudinary(old(settings), p) && saved == Some(settings)
    {
      if settings.cloudinary.None? {
        settings := settings.(cloudinary := Some(CloudinaryDefaults));
      }
      UpdateSettings(EmptyPatch.(cloudinary := Some(Some(MergeCloudinary(settings.cloudinary.value, p)))));
    }

    method UpdateTwicPicsSettings(p: TwicPicsPatch)
      modifies this
      ensures settings == UpdateTwicPics(old(settings), p) && saved == Some(settings)
    {
      if settings.twicpics.None? {
        settings := settings.(twicpics := Some(TwicPicsDefaults));
      }
      UpdateSettings(EmptyPatch.(twicpics := Some(Some(MergeTwicPics(settings.twicpics.value, p)))));
    }

    method UpdateCloudflareSettings(p: CloudflarePatch)
      modifies this
      ensures settings == UpdateCloudflare(old(settings), p) && saved == Some(settings)
    {
      if settings.cloudflare.None? {
        settings := settings.(cloudflare := Some(CloudflareDefaults));
      }
      UpdateSettings(EmptyPatch.(cloudflare := Some(Some(MergeCloudflare(settings.cloudflare.value, p)))));
    }

    method UpdateBunnySettings(p: BunnyPatch)
      modifies this
      ensures settings == UpdateBunny(old(settings), p) && saved == Some(settings)
    {
      if settings.bunny.None? {
        settings := settings.(bunny := Some(BunnyDefaults));
      }
      UpdateSettings(EmptyPatch.(bunny := Some(Some(MergeBunny(settings.bunny.value, p)))));
    }

    method OnRemoveZone(index: nat)
      requires index < |Zones(settings)|
      modifies this
      ensures settings == RemoveZone(old(settings), index) && saved == Some(settings)
    {
      var zones := Zones(settings);
      var newZones := zones[..index] + zones[index + 1..];
      var prevDefault := DefaultZone(settings);
      UpdateBunnySettings(BunnyPatch(
        Some(Some(newZones)),
        Some(if prevDefault == Some(zones[index].name) then Some(if |newZones| > 0 then newZones[0].name else "") else prevDefault),
        None));
    }

    method OnRemoveFolder(index: nat, folder: string)
      requires index < |Zones(settings)|
      modifies this
      ensures settings == RemoveFolder(old(settings), index, folder) && saved == Some(settings)
    {
      var zone := Zones(settings)[index];
      var updated := zone.(folders := if zone.folders.Some? then Some(Without(zone.folders.value, folder)) else None);
      UpdateBunnySettings(BunnyPatch(Some(Some(ReplaceByName(Zones(settings), zone.name, updated))), None, None));
    }

    method OnAddZone(name: string, accessKey: string, pullZoneUrl: string, customCdn: string, folderPath: string)
      returns (added: bool)
      modifies this
      ensures added <==> name != "" && accessKey != "" && pullZoneUrl != ""
      ensures settings == AddZone(old(settings), name, accessKey, pullZoneUrl, customCdn, folderPath)
      ensures added ==> saved == Some(settings)
      ensures !added ==> saved == old(saved)
    {
      if name == "" || accessKey == "" || pullZoneUrl == "" {
        return false;
      }
      var newZones := Zones(settings) + [NewZone(name, accessKey, pullZoneUrl, customCdn, folderPath)];
      UpdateBunnySettings(BunnyPatch(Some(Some(newZones)), Some(if |newZones| == 1 then Some(name) else DefaultZone(settings)), None));
      added := true;
    }

    method OnAddIgnoredFolder(path: string)
      modifies this
      ensures settings == AddIgnoredFolder(old(settings), path)
      ensures path !in old(settings.ignoredFolders) ==> saved == Some(settings)
      ensures path in old(settings.ignoredFolders) ==> saved == old(saved)
    {
      if path !in settings.ignoredFolders {
        UpdateSettings(EmptyPatch.(ignoredFolders := Some(settings.ignoredFolders + [path])));
      }
    }

    method OnRemoveIgnoredFolder(index: nat)
      requires index < |settings.ignoredFolders|
      modifies this
      ensures settings == RemoveIgnoredFolder(old(settings), index) && saved == Some(settings)
    {
      var folders := settings.ignoredFolders;
      UpdateSettings(EmptyPatch.(ignoredFolders := Some(folders[..index] + folders[index + 1..])));
    }

    method OnServiceChange(value: string)
      modifies this
      ensures settings == SwitchService(old(settings), value) && saved == Some(settings)
    {
      UpdateSettings(EmptyPatch.(service := Some(value), cloudinary := Some(None), twicpics := Some(None),
                                 cloudflare := Some(None), bunny := Some(None)));
    }

    /** The note-folder toggle writes the flag and saves the whole settings. */
    method OnUseNoteFoldersChange(value: bool)
      modifies this
      ensures settings == old(settings).(ignoredFoldersSettings := IgnoredFoldersSettings(value))
      ensures saved == Some(settings)
    {
      settings := settings.(ignoredFoldersSettings := IgnoredFoldersSettings(value));
      saved := Some(settings);
    }
  }
}
