// Pasting media into a note: the MIME filter, the upload placeholder, the key of
// the upload lock and what becomes of the placeholder once the uploads answer.
//
// The paste handler inserts ONE placeholder and then, for every uploaded file,
// replaces the first occurrence of that placeholder by the file's link.  After the
// first success the placeholder is gone, so the links of the later files are never
// written.  `UploadsAsWritten` keeps that behaviour and `AsWrittenLinksOnlyFirst`
// exhibits it; `Uploads` replaces the placeholder by the links of every successful
// upload, and that is what the plugin class uses.
//
// In a note of an ignored folder, with note folders on, the files are not uploaded:
// each is written into the note's asset folder and embedded at the cursor.

module Paste {
  import opened Common
  import opened Text
  import FileNames
  import NoteFolders

  /** A file of the clipboard: `name`, `type`, `size` and `lastModified`. */
  datatype PastedFile = PastedFile(name: string, mimeType: string, size: nat, lastModified: nat)

  /** The paste filter: images, videos and sounds. */
  predicate IsMedia(f: PastedFile)
  {
    StartsWith(f.mimeType, "image/") || StartsWith(f.mimeType, "video/") || StartsWith(f.mimeType, "audio/")
  }

  /** `Array.from(files).filter(isMedia)`. */
  function MediaFiles(files: seq<PastedFile>): (r: seq<PastedFile>)
    ensures |r| <= |files|
    ensures forall i :: 0 <= i < |r| ==> IsMedia(r[i])
    ensures forall f :: f in r <==> f in files && IsMedia(f)
  {
    if |files| == 0 then []
    else
      var rest := MediaFiles(files[1..]);
      assert forall f :: f in files <==> f == files[0] || f in files[1..];
      (if IsMedia(files[0]) then [files[0]] else []) + rest
  }

  /** Filtering works file by file, so the kept files keep their order. */
  lemma {:induction false} MediaFilesAppend(a: seq<PastedFile>, b: seq<PastedFile>)
    ensures MediaFiles(a + b) == MediaFiles(a) + MediaFiles(b)
  {
    if |a| > 0 {
      MediaFilesAppend(a[1..], b);
      assert (a + b)[1..] == a[1..] + b;
    } else {
      assert a + b == b;
    }
  }

  /** `upload-${Date.now()}`. */
  function PlaceholderId(now: nat): string
  {
    "upload-" + NatToString(now)
  }

  /** `![Uploading...${placeholderId}](...)\n`, inserted at the cursor. */
  function Placeholder(id: string): (r: string)
    ensures |r| > 0 && r[0] == '!'
  {
    "![Uploading..." + id + "](...)\n"
  }

  /** `[](${response.url})\n`: what a successful upload puts in place of the placeholder. */
  function UploadedLink(url: string): (r: string)
    ensures |r| == |url| + 5 && r[..3] == "[](" && r[3..3 + |url|] == url && r[3 + |url|..] == ")\n"
  {
    "[](" + url + ")\n"
  }

  /** A link holds no `!` unless its url does, so it never holds a placeholder. */
  lemma LinkHoldsNoPlaceholder(url: string, id: string)
    requires '!' !in url
    ensures IndexOf(UploadedLink(url), Placeholder(id), 0) == -1
  {
    var l := UploadedLink(url);
    assert forall k :: 0 <= k < |l| ==> l[k] != '!' by {
      forall k | 0 <= k < |l| ensures l[k] != '!' {
        if 3 <= k < 3 + |url| {
          assert l[k] == l[3..3 + |url|][k - 3] == url[k - 3];
        } else if k < 3 {
          assert l[k] == l[..3][k];
        } else {
          assert l[k] == l[3 + |url|..][k - 3 - |url|];
        }
      }
    }
    AbsentLead(l, Placeholder(id));
  }

  /** `${file.name}-${file.size}-${file.lastModified}`: the key of the upload lock. */
  function FileId(f: PastedFile): string
  {
    f.name + "-" + NatToString(f.size) + "-" + NatToString(f.lastModified)
  }

  /** What one file yields: nothing while another paste holds its lock or when the
      upload of its renamed copy fails, the url of the upload otherwise. */
  function Outcome(f: PastedFile, lock: set<string>, prefix: string, now: nat, upload: string -> Result<string>): (r: Option<string>)
    ensures FileId(f) in lock ==> r.None?
    ensures r.Some? ==> upload(FileNames.GenerateFileName(f.name, prefix, now)) == Ok(r.value)
  {
    if FileId(f) in lock then None
    else
      match upload(FileNames.GenerateFileName(f.name, prefix, now))
      case Ok(url) => Some(url)
      case Err(_) => None
  }

  /** The outcome of every file, in order. */
  function Outcomes(files: seq<PastedFile>, lock: set<string>, prefix: string, now: nat, upload: string -> Result<string>): (r: seq<Option<string>>)
    ensures |r| == |files|
    ensures forall i :: 0 <= i < |files| ==> r[i] == Outcome(files[i], lock, prefix, now, upload)
  {
    seq(|files|, i requires 0 <= i < |files| => Outcome(files[i], lock, prefix, now, upload))
  }

  // ----- as written: each success replaces the first placeholder -----

  /** The note after the uploads, as written: every successful upload replaces the
      first occurrence of the placeholder `p` by its link. */
  function UploadsAsWritten(text: string, p: string, outcomes: seq<Option<string>>): string
    decreases |outcomes|
  {
    if |outcomes| == 0 then text
    else
      var t := UploadsAsWritten(text, p, outcomes[..|outcomes| - 1]);
      var o := outcomes[|outcomes| - 1];
      if o.Some? then ReplaceFirst(t, p, UploadedLink(o.value)) else t
  }

  /** Once the placeholder is gone, no later upload changes the note. */
  lemma {:induction false} AsWrittenInertWithoutPlaceholder(text: string, p: string, outcomes: seq<Option<string>>)
    requires IndexOf(text, p, 0) == -1
    ensures UploadsAsWritten(text, p, outcomes) == text
    decreases |outcomes|
  {
    if |outcomes| > 0 {
      AsWrittenInertWithoutPlaceholder(text, p, outcomes[..|outcomes| - 1]);
    }
  }

  /** Two images pasted into an empty note, both uploaded: as written, only the first
      link is inserted and the second is lost. */
  lemma AsWrittenLinksOnlyFirst(id: string, u1: string, u2: string)
    requires '!' !in u1
    ensures UploadsAsWritten(Placeholder(id), Placeholder(id), [Some(u1), Some(u2)]) == UploadedLink(u1)
    ensures u1 != u2 ==> UploadsAsWritten(Placeholder(id), Placeholder(id), [Some(u1), Some(u2)]) != UploadedLink(u1) + UploadedLink(u2)
  {
    var p := Placeholder(id);
    var l1, l2 := UploadedLink(u1), UploadedLink(u2);
    var os := [Some(u1), Some(u2)];
    assert os[..1] == [Some(u1)] && os[..1][..0] == [];
    assert OccursAt(p, p, 0);
    ReplaceFirstAt(p, p, l1, 0);
    assert UploadsAsWritten(p, p, os[..1]) == l1;
    LinkHoldsNoPlaceholder(u1, id);
    assert UploadsAsWritten(p, p, os) == ReplaceFirst(l1, p, l2) == l1;
    assert |l1 + l2| > |l1|;
  }

  // ----- corrected: the placeholder becomes the links of every success -----

  /** The links of the successful uploads, in order. */
  function Links(outcomes: seq<Option<string>>): string
    decreases |outcomes|
  {
    if |outcomes| == 0 then ""
    else
      var o := outcomes[|outcomes| - 1];
      Links(outcomes[..|outcomes| - 1]) + (if o.Some? then UploadedLink(o.value) else "")
  }

  /** One more outcome adds its link, if any, after the links so far. */
  lemma LinksStep(outcomes: seq<Option<string>>, i: nat)
    requires i < |outcomes|
    ensures Links(outcomes[..i + 1]) == Links(outcomes[..i]) + (if outcomes[i].Some? then UploadedLink(outcomes[i].value) else "")
  {
    assert outcomes[..i + 1][..i] == outcomes[..i];
  }

  /** The note after the uploads: the first placeholder becomes the links of every
      successful upload; with no success the placeholder stays, as it does as written. */
  function Uploads(text: string, p: string, outcomes: seq<Option<string>>): string
  {
    var links := Links(outcomes);
    if links == "" then text else ReplaceFirst(text, p, links)
  }

  /** Every successful upload's link is among the links, at a known offset. */
  lemma {:induction false} LinkInLinks(outcomes: seq<Option<string>>, k: nat)
    requires k < |outcomes| && outcomes[k].Some?
    ensures exists j :: OccursAt(Links(outcomes), UploadedLink(outcomes[k].value), j)
    decreases |outcomes|
  {
    var n := |outcomes| - 1;
    var before := Links(outcomes[..n]);
    var o := outcomes[n];
    var l := if o.Some? then UploadedLink(o.value) else "";
    assert Links(outcomes) == before + l;
    if k == n {
      assert (before + l)[|before|..|before| + |l|] == l;
      assert OccursAt(Links(outcomes), UploadedLink(outcomes[k].value), |before|);
    } else {
      assert outcomes[..n][k] == outcomes[k];
      LinkInLinks(outcomes[..n], k);
      var j :| OccursAt(before, UploadedLink(outcomes[k].value), j);
      OccursInPrefix(before, l, UploadedLink(outcomes[k].value), j);
    }
  }

  lemma OccursInPrefix(a: string, b: string, t: string, j: nat)
    requires OccursAt(a, t, j)
    ensures OccursAt(a + b, t, j)
  {
    assert (a + b)[j..j + |t|] == a[j..j + |t|];
  }

  /** With a placeholder in the note, every successful upload's link ends up in it. */
  lemma UploadsInsertEvery(text: string, p: string, outcomes: seq<Option<string>>, k: nat)
    requires IndexOf(text, p, 0) >= 0 && k < |outcomes| && outcomes[k].Some?
    ensures exists j :: OccursAt(Uploads(text, p, outcomes), UploadedLink(outcomes[k].value), j)
  {
    var links := Links(outcomes);
    var l := UploadedLink(outcomes[k].value);
    LinkInLinks(outcomes, k);
    var j :| OccursAt(links, l, j);
    var i := IndexOf(text, p, 0);
    assert links != "";
    ReplaceFirstAt(text, p, links, i);
    assert Uploads(text, p, outcomes) == ReplaceFirst(text, p, links);
    OccursInMiddle(text[..i], links, text[i + |p|..], l, j);
  }

  /** For a single file the correction changes nothing. */
  lemma SingleFileAgrees(text: string, p: string, o: Option<string>)
    ensures Uploads(text, p, [o]) == UploadsAsWritten(text, p, [o])
  {
    assert [o][..0] == [];
    if o.Some? {
      assert Links([o]) == "" + UploadedLink(o.value) == UploadedLink(o.value);
    } else {
      assert Links([o]) == "";
    }
  }

  // ----- pasting into the note's asset folder -----

  /** The link written for a new file: the vault's link path to it, or its bare name
      when the vault gives none (`?.path || fileName`). */
  function LinkPath(fileName: string, linkDest: string -> Option<string>): string
  {
    var d := linkDest(fileName);
    if d.Some? && d.value != "" then d.value else fileName
  }

  /** The files a note-folder paste creates and the text it inserts at the cursor. */
  datatype Created = Created(paths: set<string>, text: string)

  /** `generateFileName(file)` of every pasted file, without a prefix. */
  function GeneratedNames(files: seq<PastedFile>, now: nat): (r: seq<string>)
    ensures |r| == |files|
    ensures forall i :: 0 <= i < |files| ==> r[i] == FileNames.GenerateFileName(files[i].name, "", now)
  {
    seq(|files|, i requires 0 <= i < |files| => FileNames.GenerateFileName(files[i].name, "", now))
  }

  /** The first `|names|` files pasted into `assets` under the given names
      (`${assetsFolderPath}/${fileName}`): a file whose path is `taken`, or was created
      by an earlier file of the paste, fails and is skipped; every other one is created
      and its embed inserted at the cursor, which stays in front of the embeds already
      inserted. */
  function CreateAll(names: seq<string>, assets: string, taken: set<string>,
                     linkDest: string -> Option<string>): (r: Created)
    decreases |names|
  {
    if |names| == 0 then Created({}, "")
    else
      var n := |names| - 1;
      var r := CreateAll(names[..n], assets, taken, linkDest);
      var p := assets + "/" + names[n];
      if p in taken || p in r.paths then r
      else Created(r.paths + {p}, NoteFolders.Embed(LinkPath(names[n], linkDest)) + "\n" + r.text)
  }

  /** No taken path is created, at most one file per name, and an embed is inserted
      exactly when a file is created. */
  lemma {:induction false} CreateAllBounds(names: seq<string>, assets: string, taken: set<string>,
                                            linkDest: string -> Option<string>)
    ensures var r := CreateAll(names, assets, taken, linkDest);
            r.paths !! taken && |r.paths| <= |names| && (r.text == "" <==> r.paths == {})
    decreases |names|
  {
    if |names| > 0 {
      var n := |names| - 1;
      CreateAllBounds(names[..n], assets, taken, linkDest);
    }
  }

  /** One more name: its file is created unless its path is taken. */
  lemma CreateAllStep(names: seq<string>, i: nat, assets: string, taken: set<string>, linkDest: string -> Option<string>)
    requires i < |names|
    ensures var r := CreateAll(names[..i], assets, taken, linkDest);
            var p := assets + "/" + names[i];
            CreateAll(names[..i + 1], assets, taken, linkDest)
            == if p in taken || p in r.paths then r
               else Created(r.paths + {p}, NoteFolders.Embed(LinkPath(names[i], linkDest)) + "\n" + r.text)
  {
    assert names[..i + 1][..i] == names[..i];
  }

  /** Exactly the free paths of the pasted files are created. */
  lemma {:induction false} CreateAllPaths(names: seq<string>, assets: string, taken: set<string>,
                                           linkDest: string -> Option<string>, p: string)
    ensures p in CreateAll(names, assets, taken, linkDest).paths <==>
            p !in taken && exists i :: 0 <= i < |names| && p == assets + "/" + names[i]
    decreases |names|
  {
    if |names| > 0 {
      var n := |names| - 1;
      CreateAllPaths(names[..n], assets, taken, linkDest, p);
      NamesOfPrefix(names, n, assets, p);
    }
  }

  lemma NamesOfPrefix(names: seq<string>, n: nat, assets: string, p: string)
    requires n + 1 == |names|
    ensures (exists i :: 0 <= i < |names| && p == assets + "/" + names[i]) <==>
            (exists i :: 0 <= i < n && p == assets + "/" + names[..n][i]) || p == assets + "/" + names[n]
  {
    if exists i :: 0 <= i < |names| && p == assets + "/" + names[i] {
      var i :| 0 <= i < |names| && p == assets + "/" + names[i];
      if i < n {
        assert names[..n][i] == names[i];
      }
    }
    if exists i :: 0 <= i < n && p == assets + "/" + names[..n][i] {
      var k :| 0 <= k < n && p == assets + "/" + names[..n][k];
      assert names[..n][k] == names[k];
    }
  }
}
