// The plugin object: its settings, the upload service it holds, the note contents it
// saw on opening, the upload lock, and the part of the vault its handlers touch.
// Each event handler is a method: file open strips the `!` of image links, paste
// uploads media or files it in the note's asset folder, rename moves the asset folder
// and rewrites the embeds pointing into it, unload restores the `!`.

module MediaFlowz {
  import opened Common
  import opened Text
  import opened Settings
  import opened Editor
  import opened NoteFolders
  import ImagePath
  import Factory
  import BangRewrite
  import Paste
  import FileNames
  import Pieces

  /** The ignored-folder test of the paste and rename handlers: the note lies in one of
      the configured folders, under the rule of `isInIgnoredFolder`. */
  function IsIgnored(folders: seq<string>, path: string): (r: bool)
    ensures r <==> exists i :: 0 <= i < |folders| && ImagePath.InFolder(path, folders[i])
    ensures r <==> exists i :: 0 <= i < |folders| && ImagePath.IsInIgnoredFolder(folders, path, folders[i])
    decreases |folders|
  {
    if |folders| == 0 then false
    else
      assert forall i :: 1 <= i < |folders| ==> folders[1..][i - 1] == folders[i];
      ImagePath.InFolder(path, folders[0]) || IsIgnored(folders[1..], path)
  }

  /** Where `vault.rename(folder, to)` puts a path: the folder and everything below it
      move, every other path stays. */
  function Moved(p: string, from: string, to: string): string
  {
    if p == from then to
    else if StartsWith(p, from + "/") then to + p[|from|..]
    else p
  }

  /** The folder becomes `to`, a path below it keeps its place below `to`, every other
      path stays. */
  lemma MovedShape(p: string, from: string, to: string)
    ensures var r := Moved(p, from, to);
            (p != from && !StartsWith(p, from + "/") ==> r == p)
            && (p == from ==> r == to)
            && (StartsWith(p, from + "/") ==> StartsWith(r, to + "/") && r[|to|..] == p[|from|..])
  {
    if p != from && StartsWith(p, from + "/") {
      var r := to + p[|from|..];
      assert p[|from|] == (from + "/")[|from|] == '/';
      assert r[..|to| + 1] == to + "/";
    }
  }

  /** Every path of the vault after the folder `from` is renamed to `to`. */
  function MovedAll(paths: set<string>, from: string, to: string): set<string>
  {
    set p | p in paths :: Moved(p, from, to)
  }

  /** What the rename handler knows of a rename: the folder of the note's old name
      and its basename, and the new basename. */
  function RenameCtx(oldPath: string, newPath: string, children: seq<string>, files: set<string>): RenameContext
  {
    RenameContext(OldFolder(oldPath), OldBasename(oldPath), Basename(FileName(newPath)), ChildMap(children), files)
  }

  /** The notes after a rename: each note with its embeds into the renamed folder
      rewritten. */
  function RenamedNotes(notes: map<string, string>, ctx: RenameContext, embeds: string -> seq<string>,
                        linkText: (string, string) -> string): (r: map<string, string>)
    ensures r.Keys == notes.Keys
  {
    map n | n in notes :: RewriteNote(notes[n], embeds(n), n, ctx, linkText).content
  }

  /** A note none of whose embeds points into the renamed folder keeps its content. */
  lemma RenameKeepsOtherNotes(notes: map<string, string>, ctx: RenameContext, embeds: string -> seq<string>,
                              linkText: (string, string) -> string, n: string)
    requires n in notes && forall i :: 0 <= i < |embeds(n)| ==> !InOldFolder(embeds(n)[i], ctx)
    ensures RenamedNotes(notes, ctx, embeds, linkText)[n] == notes[n]
  {
    RewriteNoteOutside(notes[n], embeds(n), n, ctx, linkText);
  }

  /** The notes after unloading: every note opened since loading has the `!` of its
      image links restored. */
  function RestoredNotes(notes: map<string, string>, seen: set<string>): (r: map<string, string>)
    ensures r.Keys == notes.Keys
  {
    map n | n in notes :: if n in seen then BangRewrite.RestoreBangs(notes[n]) else notes[n]
  }

  /** A note opened with a `!` before every image link, and saved as the editor showed
      it, is given back by unloading. */
  lemma UnloadRestoresOpenedNote(notes: map<string, string>, seen: set<string>, n: string, ps: seq<Pieces.Piece>)
    requires Pieces.WellFormed(ps) && Pieces.ProseWithoutBang(ps)
    requires n in notes && n in seen && notes[n] == BangRewrite.StripBangs(Pieces.Render(ps, 1))
    ensures RestoredNotes(notes, seen)[n] == Pieces.Render(ps, 1)
  {
    BangRewrite.StripThenRestoreFixed(ps);
  }

  /** A moved subtree moves back: renaming the folder back undoes the rename for every
      path below it. */
  lemma MovedUndo(p: string, from: string, to: string)
    requires p == from || StartsWith(p, from + "/")
    ensures Moved(Moved(p, from, to), to, from) == p
  {
    if p != from {
      MovedShape(p, from, to);
      var r := Moved(p, from, to);
      assert r != to by {
        assert |r| > |to|;
      }
      assert from + r[|to|..] == p by {
        assert p[..|from|] == (from + "/")[..|from|] == from;
      }
    }
  }

  /** `file.extension === 'md'`: the text after the name's last dot. */
  predicate IsMarkdownName(name: string)
  {
    '.' in name && AfterLast(name, '.') == "md"
  }

  /** `${noteDirPath}/${noteBasename}`: the asset folder of a note. */
  function AssetsFolder(notePath: string): string
  {
    NoteFolder(notePath, Basename(FileName(notePath)))
  }

  /** The note after an upload paste at offset `at`: with media among the files, the
      placeholder inserted there and then replaced by the links of the successful
      uploads; without, the note as it was. */
  function UploadPaste(text: string, at: nat, files: seq<Paste.PastedFile>, lock: set<string>, prefix: string,
                       now: nat, send: string -> Result<string>): string
    requires at <= |text|
  {
    var media := Paste.MediaFiles(files);
    var p := Paste.Placeholder(Paste.PlaceholderId(now));
    if |media| == 0 then text
    else Paste.Uploads(Splice(text, at, at, p), p, Paste.Outcomes(media, lock, prefix, now, send))
  }

  /** The link of every media file whose upload succeeds ends up in the note. */
  lemma UploadPasteLinksEvery(text: string, at: nat, files: seq<Paste.PastedFile>, lock: set<string>, prefix: string,
                              now: nat, send: string -> Result<string>, k: nat)
    requires at <= |text| && k < |Paste.MediaFiles(files)|
    requires Paste.Outcome(Paste.MediaFiles(files)[k], lock, prefix, now, send).Some?
    ensures var url := Paste.Outcome(Paste.MediaFiles(files)[k], lock, prefix, now, send).value;
            exists j :: OccursAt(UploadPaste(text, at, files, lock, prefix, now, send), Paste.UploadedLink(url), j)
  {
    var media := Paste.MediaFiles(files);
    var p := Paste.Placeholder(Paste.PlaceholderId(now));
    var placed := Splice(text, at, at, p);
    var os := Paste.Outcomes(media, lock, prefix, now, send);
    assert OccursAt(placed, p, at);
    assert IndexOf(placed, p, 0) >= 0;
    Paste.UploadsInsertEvery(placed, p, os, k);
    assert UploadPaste(text, at, files, lock, prefix, now, send) == Paste.Uploads(placed, p, os);
  }

  lemma TakenOrCreated(p: string, notes: map<string, string>, folders: set<string>, before: set<string>,
                       now: set<string>, created: set<string>, taken: set<string>)
    requires taken == notes.Keys + folders + before && now == before + created
    ensures (p in notes || p in folders || p in now) <==> p in taken || p in created
  {
  }

  /** The upload of the service the plugin holds; without one, `upload` throws. */
  function Send(service: Option<Factory.ServiceKind>, upload: (Factory.ServiceKind, string) -> Result<string>)
    : string -> Result<string>
  {
    if service.Some? then
      var k := service.value;
      (name: string) => upload(k, name)
    else
      (name: string) => Err("no upload service")
  }

  class Plugin {
    var settings: PluginSettings
    var uploadService: Option<Factory.ServiceKind>
    /** The content of every note when first opened, by path. */
    var originalContents: map<string, string>
    /** The ids of the files being uploaded. */
    var uploadLock: set<string>
    /** The markdown notes of the vault, by path. */
    var notes: map<string, string>
    var folders: set<string>
    /** The other files of the vault. */
    var attachments: set<string>

    constructor(notes0: map<string, string>, folders0: set<string>, attachments0: set<string>)
      ensures settings == Defaults && uploadService == None
      ensures originalContents == map[] && uploadLock == {}
      ensures notes == notes0 && folders == folders0 && attachments == attachments0
    {
      settings := Defaults;
      uploadService := None;
      originalContents := map[];
      uploadLock := {};
      notes := notes0;
      folders := folders0;
      attachments := attachments0;
    }

    /** `getAbstractFileByPath(path)` finds a note, a folder or a file. */
    predicate Exists(path: string)
      reads this
    {
      path in notes || path in folders || path in attachments
    }

    /** `loadSettings`: the saved keys over the defaults; the two repairs that follow
        put back default values, so they change nothing. */
    method LoadSettings(saved: SettingsPatch)
      modifies this`settings
      ensures settings == Merge(Defaults, saved)
    {
      var s := Merge(Defaults, saved);
      if s.service == "" {
        s := s.(service := Defaults.service);
      }
      if s.service == "cloudflare" && s.cloudflare.None? {
        s := s.(cloudflare := Defaults.cloudflare);
      }
      settings := s;
    }

    /** `onload`: load the settings, then take the service the factory selects. */
    method OnLoad(saved: SettingsPatch)
      modifies this`settings, this`uploadService
      ensures settings == Merge(Defaults, saved)
      ensures uploadService == Some(Factory.SelectService(settings, false))
    {
      LoadSettings(saved);
      uploadService := Some(Factory.SelectService(settings, false));
    }

    /** The SETTINGS_UPDATED listener: keep the new settings and, once a service is
        held, reselect it. */
    method OnSettingsUpdated(s: PluginSettings)
      modifies this`settings, this`uploadService
      ensures settings == s
      ensures uploadService == if old(uploadService).Some? then Some(Factory.SelectService(s, false)) else None
    {
      settings := s;
      if uploadService.Some? {
        uploadService := Some(Factory.SelectService(s, false));
      }
    }

    /** The file-open handler: remember the note's first content, and show it with the
        `!` of its image links removed, writing the editor only when that changes it. */
    method OnFileOpen(editor: EditorBuffer, path: string, isMarkdownView: bool)
      modifies this`originalContents, editor
      ensures var shown := isMarkdownView && path in notes;
              originalContents == (if shown && path !in old(originalContents)
                                   then old(originalContents)[path := notes[path]] else old(originalContents))
      ensures var shown := isMarkdownView && path in notes;
              editor.text == (if shown && BangRewrite.StripBangs(notes[path]) != notes[path]
                              then BangRewrite.StripBangs(notes[path]) else old(editor.text))
    {
      if !isMarkdownView || path !in notes {
        return;
      }
      var content := notes[path];
      if path !in originalContents {
        originalContents := originalContents[path := content];
      }
      var newContent := BangRewrite.StripBangs(content);
      if content != newContent {
        editor.SetValue(newContent);
      }
    }

    /** The paste handler: nothing without files or an active note; in a note of an
        ignored folder, the note-folder paste when note folders are on and nothing
        otherwise; elsewhere the upload of the media under the note's prefix. */
    method OnPaste(editor: EditorBuffer, files: seq<Paste.PastedFile>, activePath: Option<string>, cursor: Pos,
                   imgPrefix: Option<string>, now: nat, upload: (Factory.ServiceKind, string) -> Result<string>,
                   linkDest: string -> Option<string>)
      requires 0 <= cursor.ch && PosToOffset(editor.text, cursor) <= |editor.text|
      modifies this`folders, this`attachments, this`uploadLock, editor
      ensures uploadLock == old(uploadLock)
      ensures |files| == 0 || activePath.None?
              || (IsIgnored(settings.ignoredFolders, activePath.value) && !settings.ignoredFoldersSettings.useNoteFolders) ==>
                editor.text == old(editor.text) && folders == old(folders) && attachments == old(attachments)
      ensures |files| > 0 && activePath.Some? && IsIgnored(settings.ignoredFolders, activePath.value)
              && settings.ignoredFoldersSettings.useNoteFolders ==>
                var assets := AssetsFolder(activePath.value);
                var c := Paste.CreateAll(Paste.GeneratedNames(files, now), assets, notes.Keys + folders + old(attachments), linkDest);
                var at := PosToOffset(old(editor.text), cursor);
                folders == (if old(Exists(assets)) then old(folders) else old(folders) + {assets})
                && attachments == old(attachments) + c.paths
                && editor.text == old(editor.text)[..at] + c.text + old(editor.text)[at..]
      ensures |files| > 0 && activePath.Some? && !IsIgnored(settings.ignoredFolders, activePath.value) ==>
                var prefix := FileNames.GetFilePrefix(imgPrefix, Basename(FileName(activePath.value)));
                folders == old(folders) && attachments == old(attachments)
                && editor.text == UploadPaste(old(editor.text), PosToOffset(old(editor.text), cursor), files,
                                              old(uploadLock), prefix, now, Send(uploadService, upload))
    {
      if |files| == 0 || activePath.None? {
        return;
      }
      var path := activePath.value;
      if IsIgnored(settings.ignoredFolders, path) {
        if settings.ignoredFoldersSettings.useNoteFolders {
          PasteIntoNoteFolder(editor, files, path, cursor, now, linkDest);
        }
        return;
      }
      var prefix := FileNames.GetFilePrefix(imgPrefix, Basename(FileName(path)));
      PasteUploads(editor, files, cursor, prefix, now, upload);
    }

    /** A paste into a note of an ignored folder: create the note's asset folder if
        nothing is there, write each file into it and embed it at the cursor. */
    method PasteIntoNoteFolder(editor: EditorBuffer, files: seq<Paste.PastedFile>, notePath: string, cursor: Pos,
                               now: nat, linkDest: string -> Option<string>)
      requires 0 <= cursor.ch && PosToOffset(editor.text, cursor) <= |editor.text|
      modifies this`folders, this`attachments, editor
      ensures var assets := AssetsFolder(notePath);
              folders == if old(Exists(assets)) then old(folders) else old(folders) + {assets}
      ensures var c := Paste.CreateAll(Paste.GeneratedNames(files, now), AssetsFolder(notePath),
                                       notes.Keys + folders + old(attachments), linkDest);
              var at := PosToOffset(old(editor.text), cursor);
              attachments == old(attachments) + c.paths
              && editor.text == old(editor.text)[..at] + c.text + old(editor.text)[at..]
    {
      var assets := AssetsFolder(notePath);
      if !Exists(assets) {
        folders := folders + {assets};
      }
      WriteFiles(editor, Paste.GeneratedNames(files, now), assets, cursor, linkDest);
    }

    /** The loop of the note-folder paste: each file whose path is free is created and
        its embed inserted at the cursor. */
    method WriteFiles(editor: EditorBuffer, names: seq<string>, assets: string, cursor: Pos,
                      linkDest: string -> Option<string>)
      requires 0 <= cursor.ch && PosToOffset(editor.text, cursor) <= |editor.text|
      modifies this`attachments, editor
      ensures var c := Paste.CreateAll(names, assets, notes.Keys + folders + old(attachments), linkDest);
              var at := PosToOffset(old(editor.text), cursor);
              attachments == old(attachments) + c.paths
              && editor.text == old(editor.text)[..at] + c.text + old(editor.text)[at..]
    {
      ghost var taken := notes.Keys + folders + attachments;
      ghost var before := editor.text;
      var at := PosToOffset(editor.text, cursor);
      assert 0 <= at <= |before|;
      var i := 0;
      while i < |names|
        invariant 0 <= i <= |names|
        invariant attachments == old(attachments) + Paste.CreateAll(names[..i], assets, taken, linkDest).paths
        invariant editor.text == before[..at] + Paste.CreateAll(names[..i], assets, taken, linkDest).text + before[at..]
        invariant PosToOffset(editor.text, cursor) == at
      {
        ghost var c := Paste.CreateAll(names[..i], assets, taken, linkDest);
        ghost var c2 := Paste.CreateAll(names[..i + 1], assets, taken, linkDest);
        Paste.CreateAllStep(names, i, assets, taken, linkDest);
        var filePath := assets + "/" + names[i];
        var line := NoteFolders.Embed(Paste.LinkPath(names[i], linkDest)) + "\n";
        ghost var free := !Exists(filePath);
        TakenOrCreated(filePath, notes, folders, old(attachments), attachments, c.paths, taken);
        InsertFront(before[..at], c.text, before[at..], line);
        WriteFile(editor, filePath, line, cursor);
        if free {
          assert c2 == Paste.Created(c.paths + {filePath}, line + c.text);
          assert attachments == old(attachments) + c2.paths;
          assert editor.text == before[..at] + c2.text + before[at..];
        } else {
          assert c2 == c;
          assert attachments == old(attachments) + c2.paths;
          assert editor.text == before[..at] + c2.text + before[at..];
        }
        i := i + 1;
      }
      assert names[..|names|] == names;
    }

    /** One file of the note-folder paste: `createBinary` fails when the path is
        taken; otherwise the file is created and its embed line inserted at the cursor,
        which stays where it was. */
    method WriteFile(editor: EditorBuffer, filePath: string, line: string, cursor: Pos)
      requires 0 <= cursor.ch && PosToOffset(editor.text, cursor) <= |editor.text|
      modifies this`attachments, editor
      ensures var at := PosToOffset(old(editor.text), cursor);
              if old(Exists(filePath)) then attachments == old(attachments) && editor.text == old(editor.text)
              else attachments == old(attachments) + {filePath} && editor.text == Splice(old(editor.text), at, at, line)
      ensures PosToOffset(editor.text, cursor) == PosToOffset(old(editor.text), cursor)
    {
      if !Exists(filePath) {
        attachments := attachments + {filePath};
        InsertKeepsPos(editor.text, cursor, line);
        editor.ReplaceRange(line, cursor, cursor);
      }
    }

    /** A paste of media to upload: one placeholder at the cursor, every media file not
        locked uploaded under its generated name, and the placeholder replaced by the
        links of the successful uploads. */
    method PasteUploads(editor: EditorBuffer, files: seq<Paste.PastedFile>, cursor: Pos, prefix: string, now: nat,
                        upload: (Factory.ServiceKind, string) -> Result<string>)
      requires 0 <= cursor.ch && PosToOffset(editor.text, cursor) <= |editor.text|
      modifies this`uploadLock, editor
      ensures uploadLock == old(uploadLock)
      ensures editor.text == UploadPaste(old(editor.text), PosToOffset(old(editor.text), cursor), files,
                                         old(uploadLock), prefix, now, Send(uploadService, upload))
    {
      var at := PosToOffset(editor.text, cursor);
      ghost var text0, lock0 := editor.text, uploadLock;
      var send := Send(uploadService, upload);
      var media := Paste.MediaFiles(files);
      if |media| == 0 {
        assert UploadPaste(text0, at, files, lock0, prefix, now, send) == text0;
        return;
      }
      var placeholder := Paste.Placeholder(Paste.PlaceholderId(now));
      editor.ReplaceRange(placeholder, cursor, cursor);
      ghost var placed := editor.text;
      assert placed == Splice(text0, at, at, placeholder);
      ghost var outcomes := Paste.Outcomes(media, lock0, prefix, now, send);
      var links := UploadAll(media, prefix, now, send);
      assert editor.text == placed;
      if links != "" {
        var content := editor.text;
        var newContent := ReplaceFirst(content, placeholder, links);
        if content != newContent {
          editor.SetValue(newContent);
        }
      }
      assert editor.text == Paste.Uploads(placed, placeholder, outcomes);
      assert editor.text == UploadPaste(text0, at, files, lock0, prefix, now, send);
    }

    /** The upload loop of the paste handler: each media file not locked is locked,
        uploaded under its generated name and unlocked; the links of the successful
        uploads are collected in order. */
    method UploadAll(media: seq<Paste.PastedFile>, prefix: string, now: nat, send: string -> Result<string>)
      returns (links: string)
      modifies this`uploadLock
      ensures uploadLock == old(uploadLock)
      ensures links == Paste.Links(Paste.Outcomes(media, old(uploadLock), prefix, now, send))
    {
      ghost var outcomes := Paste.Outcomes(media, uploadLock, prefix, now, send);
      links := "";
      var i := 0;
      while i < |media|
        invariant 0 <= i <= |media|
        invariant uploadLock == old(uploadLock)
        invariant links == Paste.Links(outcomes[..i])
      {
        Paste.LinksStep(outcomes, i);
        var f := media[i];
        var fileId := Paste.FileId(f);
        if fileId !in uploadLock {
          uploadLock := uploadLock + {fileId};
          var response := send(FileNames.GenerateFileName(f.name, prefix, now));
          if response.Ok? {
            links := links + Paste.UploadedLink(response.value);
          }
          uploadLock := uploadLock - {fileId};
        }
        i := i + 1;
      }
      assert outcomes[..|media|] == outcomes;
    }

    /** The rename handler: when a note of an ignored folder is renamed, its asset
        folder is renamed after it (which fails when something already has the new
        name) and the embeds into that folder are rewritten; `children` is the vault's
        listing of the renamed folder. */
    method OnRename(newPath: string, oldPath: string, isFile: bool, children: seq<string>,
                    embeds: string -> seq<string>, linkText: (string, string) -> string)
      modifies this`folders, this`attachments, this`notes
      ensures !old(RenameApplies(newPath, oldPath, isFile)) ==>
                folders == old(folders) && attachments == old(attachments) && notes == old(notes)
      ensures old(RenameApplies(newPath, oldPath, isFile)) ==>
                var oldFolder, newFolder := OldFolder(oldPath), AssetsFolder(newPath);
                folders == MovedAll(old(folders), oldFolder, newFolder)
                && attachments == MovedAll(old(attachments), oldFolder, newFolder)
                && notes == RenamedNotes(old(notes), RenameCtx(oldPath, newPath, children, attachments + notes.Keys),
                                         embeds, linkText)
    {
      if !settings.ignoredFoldersSettings.useNoteFolders || !isFile || !IsMarkdownName(FileName(newPath)) {
        return;
      }
      if !IsIgnored(settings.ignoredFolders, newPath) {
        return;
      }
      var oldFolder := OldFolder(oldPath);
      var newFolder := AssetsFolder(newPath);
      if oldFolder !in folders || Exists(newFolder) {
        return;
      }
      folders := MovedAll(folders, oldFolder, newFolder);
      attachments := MovedAll(attachments, oldFolder, newFolder);
      RewriteNotes(RenameCtx(oldPath, newPath, children, attachments + notes.Keys), embeds, linkText);
    }

    /** The rename handler acts: note folders are on, a markdown note of an ignored
        folder was renamed, the folder of its old name exists and nothing has the new
        folder's name yet. */
    predicate RenameApplies(newPath: string, oldPath: string, isFile: bool)
      reads this
    {
      settings.ignoredFoldersSettings.useNoteFolders && isFile && IsMarkdownName(FileName(newPath))
      && IsIgnored(settings.ignoredFolders, newPath)
      && OldFolder(oldPath) in folders && !Exists(AssetsFolder(newPath))
    }

    /** Every note, with its embeds into the renamed folder rewritten; a note is written
        only when one of its patterns was replaced. */
    method RewriteNotes(ctx: RenameContext, embeds: string -> seq<string>, linkText: (string, string) -> string)
      modifies this`notes
      ensures notes == RenamedNotes(old(notes), ctx, embeds, linkText)
    {
      var todo := notes.Keys;
      ghost var before := notes;
      while todo != {}
        invariant todo <= before.Keys && notes.Keys == before.Keys
        invariant forall n :: n in todo ==> notes[n] == before[n]
        invariant forall n :: n in before && n !in todo ==> notes[n] == RenamedNotes(before, ctx, embeds, linkText)[n]
        decreases todo
      {
        var n :| n in todo;
        var content, hasChanges := RewriteNoteContent(notes[n], embeds(n), n, ctx, linkText);
        RewriteNoteChanged(before[n], embeds(n), n, ctx, linkText);
        if hasChanges {
          notes := notes[n := content];
        }
        todo := todo - {n};
      }
      assert notes == RenamedNotes(before, ctx, embeds, linkText);
    }

    /** `onunload`: every note opened since loading gets the `!` of its image links
        back, written only when that changes it; the upload lock is cleared. */
    method OnUnload()
      modifies this`notes, this`uploadLock
      ensures notes == RestoredNotes(old(notes), originalContents.Keys)
      ensures uploadLock == {}
    {
      var todo := originalContents.Keys;
      ghost var restored := RestoredNotes(notes, originalContents.Keys);
      while todo != {}
        invariant todo <= originalContents.Keys && notes.Keys == restored.Keys
        invariant forall n :: n in notes ==> notes[n] == if n in todo then old(notes)[n] else restored[n]
        decreases todo
      {
        var path :| path in todo;
        if path in notes {
          var content := notes[path];
          var newContent := BangRewrite.RestoreBangs(content);
          if content != newContent {
            notes := notes[path := newContent];
          }
        }
        todo := todo - {path};
      }
      uploadLock := {};
    }
  }

  /** The embeds of one note rewritten in turn (the loop of the rename handler). */
  method RewriteNoteContent(content: string, links: seq<string>, notePath: string, ctx: RenameContext,
                            linkText: (string, string) -> string) returns (newContent: string, hasChanges: bool)
    ensures NoteEdit(newContent, hasChanges) == RewriteNote(content, links, notePath, ctx, linkText)
  {
    newContent, hasChanges := content, false;
    var i := 0;
    while i < |links|
      invariant 0 <= i <= |links|
      invariant NoteEdit(newContent, hasChanges) == RewriteNote(content, links[..i], notePath, ctx, linkText)
    {
      assert links[..i + 1][..i] == links[..i];
      var target := EmbedTarget(links[i], ctx);
      if target.Some? {
        var oldPattern := Embed(links[i]);
        var newPattern := Embed(linkText(target.value, notePath));
        if Contains(newContent, oldPattern) {
          newContent := ReplaceFirst(newContent, oldPattern, newPattern);
          hasChanges := true;
        }
      }
      i := i + 1;
    }
    assert links[..|links|] == links;
  }
}
