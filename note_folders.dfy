// Per-note asset folders.  A note in an ignored folder keeps its pasted files in a
// folder named after it, next to it; when the note is renamed, that folder is renamed
// with it and every embed pointing into it is rewritten.
//
// The rename handler computes the note's old basename with `.replace('.md', '')`,
// which removes the FIRST `.md` of the name rather than the extension: for a note
// named `a.mdx.md` it looks for the folder `ax.md` instead of `a.mdx`, finds nothing,
// and leaves the asset folder behind.  `OldBasenameAsWritten` keeps that computation
// and `AsWrittenMissesFolder` exhibits it; `OldBasename` takes the basename the vault
// gives the note, and that is what the rename uses.

module NoteFolders {
  import opened Common
  import opened Text

  // ----- paths -----

  /** `path.substring(path.lastIndexOf('/') + 1)`: the name after the last `/`. */
  function FileName(path: string): string
  {
    AfterLast(path, '/')
  }

  /** `path.substring(0, path.lastIndexOf('/'))`: JavaScript clamps the -1 of a path
      without `/` to 0, so such a path lies in the empty directory. */
  function DirOf(path: string): (r: string)
    ensures '/' in path ==> path == r + "/" + FileName(path)
    ensures '/' !in path ==> r == ""
  {
    AfterLastIsSuffix(path, '/');
    var name := FileName(path);
    if |name| == |path| then ""
    else
      var r := path[..|path| - |name| - 1];
      assert path == r + "/" + name by {
        assert path[|path| - |name|..] == name;
      }
      r
  }

  /** The vault's basename of a file name: the name without its last `.extension`. */
  function Basename(name: string): string
  {
    AfterLastIsSuffix(name, '.');
    var ext := AfterLast(name, '.');
    if |ext| == |name| then name
    else
      assert name[|name| - |ext|..] == ext;
      name[..|name| - |ext| - 1]
  }

  /** The name holds no `/` and ends the path. */
  lemma FileNameShape(path: string)
    ensures '/' !in FileName(path) && EndsWith(path, FileName(path))
  {
    AfterLastIsSuffix(path, '/');
  }

  /** The basename starts the name; past it comes the last `.` of the name, if any. */
  lemma BasenameShape(name: string)
    ensures var r := Basename(name);
            StartsWith(name, r)
            && ('.' in name ==> |r| < |name| && name[|r|] == '.' && '.' !in name[|r| + 1..])
            && ('.' !in name ==> r == name)
  {
    AfterLastIsSuffix(name, '.');
    var ext := AfterLast(name, '.');
    if |ext| < |name| {
      assert name[|name| - |ext|..] == ext;
      assert name[|name| - |ext| - 1] == '.';
    }
  }

  /** `${noteDirPath}/${noteBasename}`: the asset folder of the note at `notePath`. */
  function NoteFolder(notePath: string, basename: string): string
  {
    DirOf(notePath) + "/" + basename
  }

  /** The last `/` of a path is the one before its name. */
  lemma {:induction false} LastSlash(dir: string, name: string)
    requires '/' !in name
    ensures FileName(dir + "/" + name) == name
    ensures DirOf(dir + "/" + name) == dir
  {
    var p := dir + "/" + name;
    var a := FileName(p);
    AfterLastIsSuffix(p, '/');
    assert p[|p| - |a|..] == a;
    assert p[|dir|] == '/';
    assert p[|dir| + 1..] == name;
  }

  /** The vault's basename of a markdown note's name is the name without `.md`. */
  lemma MarkdownBasename(b: string)
    ensures Basename(b + ".md") == b
  {
    var n := b + ".md";
    BasenameShape(n);
    assert n[|b|] == '.' && n[|b| + 1..] == "md";
  }

  // ----- the old basename on rename -----

  /** `oldPath.substring(oldPath.lastIndexOf('/') + 1).replace('.md', '')`, as written. */
  function OldBasenameAsWritten(oldPath: string): string
  {
    ReplaceFirst(FileName(oldPath), ".md", "")
  }

  /** The old basename as the vault gave it to the note before the rename. */
  function OldBasename(oldPath: string): string
  {
    Basename(FileName(oldPath))
  }

  /** The folder the rename looks for: `${oldDirPath}/${oldBasename}`. */
  function OldFolder(oldPath: string): string
  {
    DirOf(oldPath) + "/" + OldBasename(oldPath)
  }

  /** For the note `dir/b.md`, the folder the rename looks for is the folder a paste
      into that note created. */
  lemma RenameFindsPasteFolder(dir: string, b: string)
    requires '/' !in b
    ensures OldBasename(dir + "/" + b + ".md") == b
    ensures OldFolder(dir + "/" + b + ".md") == NoteFolder(dir + "/" + b + ".md", Basename(b + ".md"))
  {
    assert dir + "/" + b + ".md" == dir + "/" + (b + ".md");
    assert '/' !in b + ".md";
    LastSlash(dir, b + ".md");
    MarkdownBasename(b);
  }

  /** A note `a.mdx.md` in the folder `dir`: as written, the rename looks for the
      folder `dir/ax.md`, while the paste put the note's files in `dir/a.mdx`. */
  lemma AsWrittenMissesFolder(dir: string)
    ensures DirOf(dir + "/a.mdx.md") + "/" + OldBasenameAsWritten(dir + "/a.mdx.md") == dir + "/ax.md"
    ensures NoteFolder(dir + "/a.mdx.md", Basename(FileName(dir + "/a.mdx.md"))) == dir + "/a.mdx"
    ensures OldFolder(dir + "/a.mdx.md") == dir + "/a.mdx"
  {
    ExampleAsWrittenFolder(dir);
    ExamplePasteFolder(dir);
    ExampleOldFolder(dir);
  }

  lemma ExampleAsWrittenFolder(dir: string)
    ensures DirOf(dir + "/a.mdx.md") + "/" + OldBasenameAsWritten(dir + "/a.mdx.md") == dir + "/ax.md"
  {
    ExampleName(dir);
    ExampleAsWritten(dir);
    JoinLiteral(dir, "/", "ax.md", "/ax.md");
  }

  lemma ExamplePasteFolder(dir: string)
    ensures NoteFolder(dir + "/a.mdx.md", Basename(FileName(dir + "/a.mdx.md"))) == dir + "/a.mdx"
  {
    ExampleName(dir);
    ExampleCorrected(dir);
    JoinLiteral(dir, "/", "a.mdx", "/a.mdx");
  }

  lemma ExampleOldFolder(dir: string)
    ensures OldFolder(dir + "/a.mdx.md") == dir + "/a.mdx"
  {
    ExampleName(dir);
    ExampleCorrected(dir);
    JoinLiteral(dir, "/", "a.mdx", "/a.mdx");
  }

  lemma JoinLiteral(a: string, b: string, c: string, bc: string)
    requires bc == b + c
    ensures a + b + c == a + bc
  {
  }

  lemma ExampleAsWritten(dir: string)
    requires FileName(dir + "/a.mdx.md") == "a.mdx.md"
    ensures OldBasenameAsWritten(dir + "/a.mdx.md") == "ax.md"
  {
    var n := "a.mdx.md";
    ExampleFirstMd();
    ReplaceFirstAt(n, ".md", "", 1);
    assert n[..1] + "" + n[4..] == "ax.md";
  }

  lemma ExampleCorrected(dir: string)
    requires FileName(dir + "/a.mdx.md") == "a.mdx.md"
    ensures OldBasename(dir + "/a.mdx.md") == "a.mdx"
  {
    assert "a.mdx.md" == "a.mdx" + ".md";
    MarkdownBasename("a.mdx");
  }

  lemma ExampleName(dir: string)
    ensures FileName(dir + "/a.mdx.md") == "a.mdx.md" && DirOf(dir + "/a.mdx.md") == dir
  {
    assert dir + "/a.mdx.md" == dir + "/" + "a.mdx.md";
    LastSlash(dir, "a.mdx.md");
  }

  lemma ExampleFirstMd()
    ensures IndexOf("a.mdx.md", ".md", 0) == 1
  {
    var n := "a.mdx.md";
    assert n[0..3][0] != ".md"[0];
    assert n[1..4] == ".md";
  }

  // ----- the embed path -----

  /** `(^|/)seg/` matches at `j`: `seg/` starts at `j`, at the start or after a `/`. */
  predicate SegmentStart(path: string, seg: string, j: int)
  {
    OccursAt(path, seg + "/", j) && (j == 0 || path[j - 1] == '/')
  }

  /** The first segment start at or after `from`: where the regex `(^|/)seg/` matches
      first, since a match at the start of the string is tried before one after a `/`. */
  function SegmentAt(path: string, seg: string, from: nat): (r: Option<nat>)
    requires from <= |path|
    ensures r.Some? ==> from <= r.value && SegmentStart(path, seg, r.value)
    ensures forall j :: from <= j && (r.None? || j < r.value) ==> !SegmentStart(path, seg, j)
    decreases |path| - from
  {
    if SegmentStart(path, seg, from) then Some(from)
    else if from == |path| then None
    else SegmentAt(path, seg, from + 1)
  }

  /** `path.replace(new RegExp(`(^|/)${oldB}/`), `$1${newB}/`)`: the first `oldB/`
      segment becomes `newB/`. */
  function RewriteEmbedPath(path: string, oldB: string, newB: string): (r: string)
  {
    match SegmentAt(path, oldB, 0)
    case None => path
    case Some(j) => Splice(path, j, j + |oldB| + 1, newB + "/")
  }

  /** Where the old segment occurs first, the new one stands, and nothing else moves. */
  lemma RewriteEmbedPathMoves(path: string, oldB: string, newB: string, j: nat)
    requires SegmentAt(path, oldB, 0) == Some(j)
    ensures var r := RewriteEmbedPath(path, oldB, newB);
            SegmentStart(r, newB, j) && r[..j] == path[..j] && r[j + |newB| + 1..] == path[j + |oldB| + 1..]
  {
    var r := RewriteEmbedPath(path, oldB, newB);
    assert r[..j] == path[..j];
    if j > 0 {
      assert r[j - 1] == r[..j][j - 1] == path[..j][j - 1];
    }
  }

  /** The path changes exactly when it has the old segment and the names differ. */
  lemma RewriteEmbedPathChanges(path: string, oldB: string, newB: string)
    ensures RewriteEmbedPath(path, oldB, newB) != path <==> SegmentAt(path, oldB, 0).Some? && oldB != newB
  {
    if SegmentAt(path, oldB, 0).Some? {
      var j := SegmentAt(path, oldB, 0).value;
      if oldB == newB {
        SpliceSame(path, j, oldB);
      } else {
        SpliceOther(path, j, oldB, newB);
      }
    }
  }

  lemma SpliceSame(path: string, j: nat, seg: string)
    requires OccursAt(path, seg + "/", j)
    ensures Splice(path, j, j + |seg| + 1, seg + "/") == path
  {
    assert path == path[..j] + path[j..j + |seg| + 1] + path[j + |seg| + 1..];
  }

  lemma SpliceOther(path: string, j: nat, oldB: string, newB: string)
    requires OccursAt(path, oldB + "/", j) && oldB != newB
    ensures Splice(path, j, j + |oldB| + 1, newB + "/") != path
  {
    var r := Splice(path, j, j + |oldB| + 1, newB + "/");
    if |oldB| == |newB| {
      var k :| 0 <= k < |oldB| && oldB[k] != newB[k];
      assert r[j + k] == (newB + "/")[k] == newB[k];
      assert path[j + k] == (oldB + "/")[k] == oldB[k];
    }
  }

  /** Renaming back, where the new segment is now found first, restores the path. */
  lemma RewriteEmbedPathUndo(path: string, oldB: string, newB: string)
    requires SegmentAt(path, oldB, 0).Some?
    requires SegmentAt(RewriteEmbedPath(path, oldB, newB), newB, 0) == SegmentAt(path, oldB, 0)
    ensures RewriteEmbedPath(RewriteEmbedPath(path, oldB, newB), newB, oldB) == path
  {
    var j := SegmentAt(path, oldB, 0).value;
    var r := RewriteEmbedPath(path, oldB, newB);
    assert path[j..j + |oldB| + 1] == oldB + "/";
    assert r[..j] == path[..j] && r[j + |newB| + 1..] == path[j + |oldB| + 1..];
    assert path == path[..j] + (oldB + "/") + path[j + |oldB| + 1..];
  }

  // ----- the renamed folder's files -----

  /** The `fileMap` of the renamed folder: each file under its name and under its
      basename, a later file winning over an earlier one. */
  function ChildMap(children: seq<string>): (r: map<string, string>)
    ensures forall k :: k in r ==> r[k] in children && NamedBy(r[k], k)
    decreases |children|
  {
    if |children| == 0 then map[]
    else
      var n := |children| - 1;
      var name := FileName(children[n]);
      ChildMap(children[..n])[name := children[n]][Basename(name) := children[n]]
  }

  /** `k` is the name of the file `c` or its basename. */
  predicate NamedBy(c: string, k: string)
  {
    k == FileName(c) || k == Basename(FileName(c))
  }

  /** The index of the last file named by `k`, or -1 when no file is. */
  function LastNamed(children: seq<string>, k: string): (r: int)
    ensures -1 <= r < |children|
    ensures r == -1 <==> forall i :: 0 <= i < |children| ==> !NamedBy(children[i], k)
    ensures r >= 0 ==> NamedBy(children[r], k) && forall j :: r < j < |children| ==> !NamedBy(children[j], k)
    decreases |children|
  {
    if |children| == 0 then -1
    else if NamedBy(children[|children| - 1], k) then |children| - 1
    else
      var front := children[..|children| - 1];
      assert forall i :: 0 <= i < |front| ==> front[i] == children[i];
      LastNamed(front, k)
  }

  /** A key is in the map exactly when some file is named by it, and it maps to the
      LAST such file of the listing: of `d/a.png` and then `d/a.jpg`, `a` finds the jpg. */
  lemma {:induction false} ChildMapLast(children: seq<string>, k: string)
    ensures k in ChildMap(children) <==> LastNamed(children, k) >= 0
    ensures k in ChildMap(children) ==> ChildMap(children)[k] == children[LastNamed(children, k)]
    decreases |children|
  {
    if |children| > 0 {
      var n := |children| - 1;
      var front := children[..n];
      var c := children[n];
      ChildMapLast(front, k);
      assert ChildMap(children) == ChildMap(front)[FileName(c) := c][Basename(FileName(c)) := c];
      if !NamedBy(c, k) {
        assert LastNamed(children, k) == LastNamed(front, k);
        if LastNamed(front, k) >= 0 {
          assert front[LastNamed(front, k)] == children[LastNamed(front, k)];
        }
      }
    }
  }

  /** Every file of the folder can be found by its name and by its basename (the entry
      may be a later file of the same name or basename). */
  lemma ChildMapFinds(children: seq<string>, i: nat)
    requires i < |children|
    ensures FileName(children[i]) in ChildMap(children) && Basename(FileName(children[i])) in ChildMap(children)
  {
    ChildMapLast(children, FileName(children[i]));
    ChildMapLast(children, Basename(FileName(children[i])));
  }

  // ----- the embeds of one note -----

  /** What a rename knows: the old folder and basenames, the renamed folder's files by
      name, and the files of the vault. */
  datatype RenameContext = RenameContext(
    oldFolder: string, oldBasename: string, newBasename: string,
    fileMap: map<string, string>, files: set<string>)

  /** `isInOldFolder`: the link names the old folder, has the old basename as an inner
      segment, or is the name of a file of the renamed folder. */
  predicate InOldFolder(link: string, ctx: RenameContext)
  {
    Contains(link, ctx.oldFolder) || Contains(link, "/" + ctx.oldBasename + "/") || link in ctx.fileMap
  }

  /** The file an embed now points at: the renamed folder's file of that name, or the
      link with its old segment renamed when that is a file of the vault. */
  function EmbedTarget(link: string, ctx: RenameContext): (r: Option<string>)
    ensures !InOldFolder(link, ctx) ==> r.None?
    ensures link in ctx.fileMap ==> r == Some(ctx.fileMap[link])
    ensures InOldFolder(link, ctx) && link !in ctx.fileMap ==>
              var p := RewriteEmbedPath(link, ctx.oldBasename, ctx.newBasename);
              (r.Some? <==> p in ctx.files) && (r.Some? ==> r.value == p)
    ensures r.Some? ==> r.value in ctx.fileMap.Values || r.value in ctx.files
  {
    if !InOldFolder(link, ctx) then None
    else if link in ctx.fileMap then Some(ctx.fileMap[link])
    else
      var p := RewriteEmbedPath(link, ctx.oldBasename, ctx.newBasename);
      if p in ctx.files then Some(p) else None
  }

  /** `![[link]]`. */
  function Embed(link: string): string
  {
    "![[" + link + "]]"
  }

  /** A note's content and whether a pattern of it was replaced (`hasChanges`). */
  datatype NoteEdit = NoteEdit(content: string, changed: bool)

  /** The embed `link` is rewritten in `content`: it has a target and its pattern occurs. */
  predicate Replaces(content: string, link: string, ctx: RenameContext)
  {
    EmbedTarget(link, ctx).Some? && Contains(content, Embed(link))
  }

  /** One embed: the first `![[link]]` becomes `![[newLink]]`, where `linkText` gives the
      vault's link text of the target as seen from the note. */
  function RewriteEmbed(e: NoteEdit, link: string, notePath: string, ctx: RenameContext,
                        linkText: (string, string) -> string): (r: NoteEdit)
    ensures Replaces(e.content, link, ctx) ==> r.changed
    ensures Replaces(e.content, link, ctx) ==>
              var i, newLink := IndexOf(e.content, Embed(link), 0), linkText(EmbedTarget(link, ctx).value, notePath);
              0 <= i && r.content == e.content[..i] + Embed(newLink) + e.content[i + |Embed(link)|..]
    ensures !Replaces(e.content, link, ctx) ==> r == e
  {
    if Replaces(e.content, link, ctx) then
      var t := EmbedTarget(link, ctx).value;
      ReplaceFirstAt(e.content, Embed(link), Embed(linkText(t, notePath)), IndexOf(e.content, Embed(link), 0));
      NoteEdit(ReplaceFirst(e.content, Embed(link), Embed(linkText(t, notePath))), true)
    else e
  }

  /** The note after every embed of it, in the order of its metadata. */
  function RewriteNote(content: string, links: seq<string>, notePath: string, ctx: RenameContext,
                       linkText: (string, string) -> string): NoteEdit
    decreases |links|
  {
    if |links| == 0 then NoteEdit(content, false)
    else
      var n := |links| - 1;
      RewriteEmbed(RewriteNote(content, links[..n], notePath, ctx, linkText), links[n], notePath, ctx, linkText)
  }

  /** Embed `i` rewrites the note as it stands after the embeds before it. */
  predicate HitAt(content: string, links: seq<string>, i: nat, notePath: string, ctx: RenameContext,
                  linkText: (string, string) -> string)
    requires i < |links|
  {
    Replaces(RewriteNote(content, links[..i], notePath, ctx, linkText).content, links[i], ctx)
  }

  /** A note is marked changed exactly when one of its embed patterns was replaced, and
      a note not marked changed is as it was. */
  predicate ChangedIffHit(content: string, links: seq<string>, notePath: string, ctx: RenameContext,
                          linkText: (string, string) -> string)
  {
    var r := RewriteNote(content, links, notePath, ctx, linkText);
    (r.changed <==> exists i :: 0 <= i < |links| && HitAt(content, links, i, notePath, ctx, linkText))
    && (!r.changed ==> r.content == content)
  }

  lemma {:induction false} RewriteNoteChanged(content: string, links: seq<string>, notePath: string,
                                               ctx: RenameContext, linkText: (string, string) -> string)
    ensures ChangedIffHit(content, links, notePath, ctx, linkText)
    decreases |links|
  {
    if |links| > 0 {
      var n := |links| - 1;
      RewriteNoteChanged(content, links[..n], notePath, ctx, linkText);
      ChangedStep(content, links, n, notePath, ctx, linkText);
    }
  }

  lemma ChangedStep(content: string, links: seq<string>, n: nat, notePath: string, ctx: RenameContext,
                    linkText: (string, string) -> string)
    requires n + 1 == |links| && ChangedIffHit(content, links[..n], notePath, ctx, linkText)
    ensures ChangedIffHit(content, links, notePath, ctx, linkText)
  {
    HitsAgree(content, links, n, notePath, ctx, linkText);
    var e := RewriteNote(content, links[..n], notePath, ctx, linkText);
    assert RewriteNote(content, links, notePath, ctx, linkText) == RewriteEmbed(e, links[n], notePath, ctx, linkText);
    if HitAt(content, links, n, notePath, ctx, linkText) {
      ChangedHit(content, links, n, notePath, ctx, linkText);
    } else {
      ChangedMiss(content, links, n, notePath, ctx, linkText);
    }
  }

  /** The last embed hits: the note is changed, and that embed is the witness. */
  lemma ChangedHit(content: string, links: seq<string>, n: nat, notePath: string, ctx: RenameContext,
                   linkText: (string, string) -> string)
    requires n + 1 == |links| && HitAt(content, links, n, notePath, ctx, linkText)
    requires RewriteNote(content, links, notePath, ctx, linkText)
             == RewriteEmbed(RewriteNote(content, links[..n], notePath, ctx, linkText), links[n], notePath, ctx, linkText)
    ensures ChangedIffHit(content, links, notePath, ctx, linkText)
  {
  }

  /** The last embed misses: the note is as the earlier embeds left it. */
  lemma ChangedMiss(content: string, links: seq<string>, n: nat, notePath: string, ctx: RenameContext,
                    linkText: (string, string) -> string)
    requires n + 1 == |links| && !HitAt(content, links, n, notePath, ctx, linkText)
    requires ChangedIffHit(content, links[..n], notePath, ctx, linkText)
    requires forall i :: 0 <= i < n ==>
      HitAt(content, links[..n], i, notePath, ctx, linkText) == HitAt(content, links, i, notePath, ctx, linkText)
    requires RewriteNote(content, links, notePath, ctx, linkText)
             == RewriteEmbed(RewriteNote(content, links[..n], notePath, ctx, linkText), links[n], notePath, ctx, linkText)
    ensures ChangedIffHit(content, links, notePath, ctx, linkText)
  {
  }

  lemma HitsAgree(content: string, links: seq<string>, n: nat, notePath: string, ctx: RenameContext,
                  linkText: (string, string) -> string)
    requires n <= |links|
    ensures forall i :: 0 <= i < n ==>
      HitAt(content, links[..n], i, notePath, ctx, linkText) == HitAt(content, links, i, notePath, ctx, linkText)
  {
    forall i | 0 <= i < n
      ensures HitAt(content, links[..n], i, notePath, ctx, linkText) == HitAt(content, links, i, notePath, ctx, linkText)
    {
      assert links[..n][..i] == links[..i];
    }
  }

  /** A note none of whose embeds points into the old folder is left alone. */
  lemma {:induction false} RewriteNoteOutside(content: string, links: seq<string>, notePath: string,
                                               ctx: RenameContext, linkText: (string, string) -> string)
    requires forall i :: 0 <= i < |links| ==> !InOldFolder(links[i], ctx)
    ensures RewriteNote(content, links, notePath, ctx, linkText) == NoteEdit(content, false)
    decreases |links|
  {
    if |links| > 0 {
      var n := |links| - 1;
      assert forall i :: 0 <= i < n ==> links[..n][i] == links[i];
      RewriteNoteOutside(content, links[..n], notePath, ctx, linkText);
    }
  }
}
