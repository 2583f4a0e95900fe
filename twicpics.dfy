// The TwicPics service: its delivery URLs and the requests it sends.  The HTTP
// client is created from the settings whenever settings are present, and
// upload and delete re-create it first unless the settings count as
// configured and a client already exists.

module TwicPics {
  import opened Common
  import opened Text
  import opened Settings
  import opened Media

  /** `isConfigured`: a domain and an API key. */
  predicate IsConfigured(s: Option<TwicPicsSettings>)
  {
    s.Some? && s.value.domain != "" && s.value.apiKey != ""
  }

  /** The client `setupTwicFetch` creates: its base URL and its authorisation header. */
  datatype Client = Client(baseUrl: string, authorization: string)

  function ClientFor(s: TwicPicsSettings): (c: Client)
    ensures c.baseUrl == "https://" + s.domain + "/v1"
    ensures c.authorization == "Bearer " + s.apiKey
  {
    Client("https://" + s.domain + "/v1", "Bearer " + s.apiKey)
  }

  /** The client as `setupTwicFetch` writes its options: the base URL is passed under the
      key `baseUrl`, which the HTTP client (it reads `baseURL`) ignores, so the client
      has no base URL and request paths stay relative. */
  function ClientAsWritten(s: TwicPicsSettings): (c: Client)
    ensures c.baseUrl == "" && c.authorization == "Bearer " + s.apiKey
  {
    Client("", "Bearer " + s.apiKey)
  }

  /** With the as-written options an upload is posted to the bare path `/upload`, not to
      the account's `https://{domain}/v1/upload`. */
  lemma AsWrittenClientPaths(s: TwicPicsSettings)
    ensures ClientAsWritten(s).baseUrl + "/upload" == "/upload"
    ensures ClientFor(s).baseUrl + "/upload" == "https://" + s.domain + "/v1/upload"
    ensures ClientAsWritten(s).baseUrl + "/upload" != ClientFor(s).baseUrl + "/upload"
  {
    var intended := ClientFor(s).baseUrl + "/upload";
    assert intended[0] == 'h';
  }

  /** `setupTwicFetch`: a new client when there are settings, the old one otherwise. */
  function Setup(s: Option<TwicPicsSettings>, client: Option<Client>): Option<Client>
  {
    if s.Some? then Some(ClientFor(s.value)) else client
  }

  /** Present settings have their own client, as every settings event leaves them. */
  predicate Consistent(s: Option<TwicPicsSettings>, client: Option<Client>)
  {
    s.Some? ==> client == Some(ClientFor(s.value))
  }

  /** The client upload and delete go on with, after their setup check: a client made
      from the settings unless they are configured and a client already exists. */
  function Prepared(s: Option<TwicPicsSettings>, client: Option<Client>): (c: Option<Client>)
    ensures c.None? <==> s.None? && client.None?
    ensures IsConfigured(s) && client.Some? ==> c == client
    ensures s.Some? && !(IsConfigured(s) && client.Some?) ==> c == Some(ClientFor(s.value))
    ensures s.None? ==> c == client
    ensures Consistent(s, client) ==> Consistent(s, c)
  {
    if !IsConfigured(s) || client.None? then Setup(s, client) else client
  }

  /** `getUrl`: refused without a domain; the transformation is one path segment. */
  function GetUrl(s: Option<TwicPicsSettings>, publicId: string, transformation: Option<string>): (r: Result<string>)
    ensures r.Err? <==> s.None? || s.value.domain == ""
    ensures r.Ok? && (transformation.None? || transformation.value == "") ==>
              r.value == "https://" + s.value.domain + "/" + publicId
    ensures r.Ok? && transformation.Some? && transformation.value != "" ==>
              r.value == "https://" + s.value.domain + "/" + transformation.value + "/" + publicId
  {
    if s.None? || s.value.domain == "" then Err("Domaine TwicPics non configuré")
    else
      var base := "https://" + s.value.domain;
      if transformation.None? || transformation.value == "" then Ok(base + "/" + publicId)
      else Ok(base + "/" + transformation.value + "/" + publicId)
  }

  /** A transformation is the same as a public id prefixed by that transformation. */
  lemma GetUrlTransformation(s: Option<TwicPicsSettings>, publicId: string, t: string)
    requires s.Some? && s.value.domain != "" && t != ""
    ensures GetUrl(s, publicId, Some(t)) == GetUrl(s, t + "/" + publicId, None)
  {
    var base := "https://" + s.value.domain;
    assert base + "/" + t + "/" + publicId == base + "/" + (t + "/" + publicId);
  }

  /** A multipart field: the file under `media`, the folder under `path`. */
  datatype Field = MediaFile(fileName: string) | PathField(path: string)

  /** The POST `upload` sends and the response it builds from the returned path. */
  datatype UploadPlan = UploadPlan(
    endpoint: string, authorization: string, fields: seq<Field>,
    url: string, publicId: string, kind: string)

  /** `upload`; `responsePath` is the `path` the TwicPics API returns.  Without a client
      the call fails; without settings it fails as well, when the response URL is built. */
  function PlanUpload(s: Option<TwicPicsSettings>, client: Option<Client>, mimeType: string, fileName: string,
                      folder: Option<string>, responsePath: string): (r: Result<UploadPlan>)
    ensures r.Ok? <==> s.Some?
    ensures r.Ok? && Consistent(s, client) ==> r.value.endpoint == "https://" + s.value.domain + "/v1/upload"
    ensures r.Ok? && Consistent(s, client) ==> r.value.authorization == "Bearer " + s.value.apiKey
    ensures r.Ok? ==> r.value.url == "https://" + s.value.domain + "/" + responsePath && r.value.publicId == responsePath
    ensures r.Ok? ==> |r.value.fields| == (if folder.Some? && folder.value != "" then 2 else 1)
    ensures r.Ok? ==> r.value.fields[0] == MediaFile(fileName)
    ensures r.Ok? && folder.Some? && folder.value != "" ==> r.value.fields[1] == PathField(folder.value)
    ensures r.Ok? ==> (r.value.kind == "video" <==> IsVideoType(mimeType))
  {
    var c := Prepared(s, client);
    if c.None? then Err("TwicPics n'est pas configuré")
    else if s.None? then Err("Cannot read properties of undefined (reading 'domain')")
    else
      var fields := [MediaFile(fileName)] + (if folder.Some? && folder.value != "" then [PathField(folder.value)] else []);
      assert Consistent(s, client) ==> c.value.baseUrl + "/upload" == "https://" + s.value.domain + "/v1/upload";
      Ok(UploadPlan(c.value.baseUrl + "/upload", c.value.authorization, fields,
                    "https://" + s.value.domain + "/" + responsePath, responsePath,
                    if IsVideoType(mimeType) then "video" else "image"))
  }

  /** `delete`: a DELETE of `/remove/{publicId}` through the prepared client. */
  function PlanDelete(s: Option<TwicPicsSettings>, client: Option<Client>, publicId: string): (r: Result<Client>)
    ensures r.Err? <==> s.None? && client.None?
    ensures Consistent(s, client) && s.Some? ==> r == Ok(Client("https://" + s.value.domain + "/v1/remove/" + publicId, "Bearer " + s.value.apiKey))
    ensures s.None? && client.Some? ==> r == Ok(Client(client.value.baseUrl + "/remove/" + publicId, client.value.authorization))
  {
    var c := Prepared(s, client);
    if c.None? then Err("TwicPics n'est pas configuré")
    else
      assert Consistent(s, client) && s.Some? ==> c.value.baseUrl + "/remove/" + publicId == "https://" + s.value.domain + "/v1/remove/" + publicId;
      Ok(Client(c.value.baseUrl + "/remove/" + publicId, c.value.authorization))
  }

  /** An upload goes ahead with settings that do not count as configured: an empty API
      key is sent as a bare `Bearer ` header. */
  lemma UploadWithoutApiKey(domain: string, mimeType: string, fileName: string, responsePath: string)
    ensures !IsConfigured(Some(TwicPicsSettings(domain, "", None)))
    ensures PlanUpload(Some(TwicPicsSettings(domain, "", None)), None, mimeType, fileName, None, responsePath).Ok?
    ensures PlanUpload(Some(TwicPicsSettings(domain, "", None)), None, mimeType, fileName, None, responsePath).value.authorization
            == "Bearer "
  {
  }

  /** The payload of `SETTINGS_UPDATED`: `{ settings }`, the plugin's whole settings. */
  datatype SettingsEvent = SettingsEvent(settings: PluginSettings)

  /** `settings.twicpics` as `handleSettingsUpdate` reads it: its parameter is the payload
      itself, which has no `twicpics` member, so the read gives `undefined`. */
  function TwicPicsReadAsWritten(e: SettingsEvent): Option<TwicPicsSettings>
  {
    None
  }

  /** The intended read, `data.settings.twicpics`, as the Cloudinary service reads its own record. */
  function TwicPicsRead(e: SettingsEvent): (r: Option<TwicPicsSettings>)
    ensures r == e.settings.twicpics
  {
    e.settings.twicpics
  }

  /** As written, a service that has only seen settings events never uploads or deletes,
      even when the event's settings hold a configured TwicPics record. */
  lemma AsWrittenNeverConfigured(e: SettingsEvent, mimeType: string, fileName: string, folder: Option<string>,
                                 responsePath: string, publicId: string)
    ensures var s := TwicPicsReadAsWritten(e);
            PlanUpload(s, Setup(s, None), mimeType, fileName, folder, responsePath)
            == Err("TwicPics n'est pas configuré")
    ensures var s := TwicPicsReadAsWritten(e);
            PlanDelete(s, Setup(s, None), publicId) == Err("TwicPics n'est pas configuré")
  {
  }

  /** Read as intended, an event carrying TwicPics settings sets up the client, and the
      next upload is posted to the account's `/v1/upload` with its key. */
  lemma SettingsEventReachesUpload(e: SettingsEvent, mimeType: string, fileName: string, folder: Option<string>,
                                   responsePath: string)
    requires e.settings.twicpics.Some?
    ensures var s := TwicPicsRead(e);
            var r := PlanUpload(s, Setup(s, None), mimeType, fileName, folder, responsePath);
            r.Ok? && r.value.endpoint == "https://" + s.value.domain + "/v1/upload"
            && r.value.authorization == "Bearer " + s.value.apiKey
  {
    var s := TwicPicsRead(e);
    assert Consistent(s, Setup(s, None));
  }

  /** `TwicPicsService`. */
  class TwicPicsService {
    var settings: Option<TwicPicsSettings>
    var client: Option<Client>

    /** Present settings always have their own client. */
    ghost predicate Valid()
      reads this
    {
      Consistent(settings, client)
    }

    /** The constructor only subscribes to events: no settings, no client. */
    constructor()
      ensures settings.None? && client.None? && Valid()
    {
      settings := None;
      client := None;
    }

    /** `handleSettingsUpdate`, reading the TwicPics record from the event's settings: an
        event without one clears the settings but keeps the client. */
    method HandleSettingsUpdate(e: SettingsEvent)
      modifies this
      ensures settings == e.settings.twicpics && client == Setup(e.settings.twicpics, old(client))
      ensures Valid()
    {
      settings := TwicPicsRead(e);
      client := Setup(settings, client);
    }

    method Upload(mimeType: string, fileName: string, folder: Option<string>, responsePath: string)
      returns (r: Result<UploadPlan>)
      modifies this
      ensures settings == old(settings) && client == Prepared(old(settings), old(client))
      ensures r == PlanUpload(old(settings), old(client), mimeType, fileName, folder, responsePath)
      ensures old(Valid()) ==> client == old(client) && Valid()
    {
      if !IsConfigured(settings) || client.None? {
        client := Setup(settings, client);
        if client.None? {
          return Err("TwicPics n'est pas configuré");
        }
      }
      if settings.None? {
        return Err("Cannot read properties of undefined (reading 'domain')");
      }
      var fields := [MediaFile(fileName)] + (if folder.Some? && folder.value != "" then [PathField(folder.value)] else []);
      r := Ok(UploadPlan(client.value.baseUrl + "/upload", client.value.authorization, fields,
                         "https://" + settings.value.domain + "/" + responsePath, responsePath,
                         if IsVideoType(mimeType) then "video" else "image"));
    }

    method Delete(publicId: string) returns (r: Result<Client>)
      modifies this
      ensures settings == old(settings) && client == Prepared(old(settings), old(client))
      ensures r == PlanDelete(old(settings), old(client), publicId)
      ensures old(Valid()) ==> client == old(client) && Valid()
    {
      if !IsConfigured(settings) || client.None? {
        client := Setup(settings, client);
        if client.None? {
          return Err("TwicPics n'est pas configuré");
        }
      }
      r := Ok(Client(client.value.baseUrl + "/remove/" + publicId, client.value.authorization));
    }
  }
}
