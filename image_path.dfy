// ImagePathService: cleaning link targets, recognising URLs, resolving a link
// target to something displayable, and the folder-membership rule that the
// plugin uses for ignored folders and for Bunny folder mapping.

module ImagePath {
  import opened Common
  import opened Text

  /** `cleanPath`: the link target without its `|size` suffix and surrounding blanks. */
  function CleanPath(path: string): (r: string)
    ensures '|' !in r
    ensures r == [] || (!IsSpace(r[0]) && !IsSpace(r[|r| - 1]))
  {
    Trim(Before(path, '|'))
  }

  lemma TrimOfTrimmed(s: string)
    requires s == [] || (!IsSpace(s[0]) && !IsSpace(s[|s| - 1]))
    ensures Trim(s) == s
  {
  }

  /** Cleaning is idempotent: a cleaned target is its own clean form. */
  lemma CleanPathIdempotent(path: string)
    ensures CleanPath(CleanPath(path)) == CleanPath(path)
  {
    var c := CleanPath(path);
    BeforeAbsent(c, '|');
    TrimOfTrimmed(c);
  }

  /** A `|size` suffix never survives cleaning: `p|w` cleans to the trimmed `p`. */
  lemma CleanPathDropsSize(p: string, w: string)
    requires '|' !in p
    ensures CleanPath(p + "|" + w) == Trim(p)
  {
    var s := p + "|" + w;
    assert s[|p|] == '|';
    assert FindChar(s, 0, '|') == |p|;
    assert s[..|p|] == p;
  }

  /** `isUrl`. */
  predicate IsUrl(path: string)
  {
    StartsWith(path, "http://") || StartsWith(path, "https://")
  }

  /** `activeFile.path.substring(0, activeFile.path.lastIndexOf('/'))`. */
  function ParentDir(path: string): (r: string)
    ensures StartsWith(path, r)
    ensures r == "" || (|r| < |path| && path[|r|] == '/')
  {
    var k := LastIndexOf(path, "/", |path| - 1);
    if k < 0 then "" else path[..k]
  }

  /** `getFullPath(src, sourcePath)`.  The vault is not modelled: `linkDest` stands for
      the metadata cache's link resolution, `byPath` for the vault lookup by path (both
      followed by `getResourcePath`), and `activeFile` for the active note's path. */
  function GetFullPath(src: string, linkDest: string -> Option<string>, byPath: string -> Option<string>,
                       activeFile: Option<string>): (r: string)
    ensures IsUrl(CleanPath(src)) ==> r == CleanPath(src)
    ensures !IsUrl(CleanPath(src)) && linkDest(CleanPath(src)).Some? ==> r == linkDest(CleanPath(src)).value
    ensures (!IsUrl(CleanPath(src)) && linkDest(CleanPath(src)).None? && byPath(CleanPath(src)).None?
             && (activeFile.None? || byPath(ParentDir(activeFile.value) + "/" + CleanPath(src)).None?))
            ==> r == src
  {
    var clean := CleanPath(src);
    if IsUrl(clean) then clean
    else if linkDest(clean).Some? then linkDest(clean).value
    else if byPath(clean).Some? then byPath(clean).value
    else if activeFile.Some? && byPath(ParentDir(activeFile.value) + "/" + clean).Some? then
      byPath(ParentDir(activeFile.value) + "/" + clean).value
    else src
  }

  /** A resolved URL resolves to itself: URLs are fixed points of `getFullPath`. */
  lemma GetFullPathUrlFixed(src: string, linkDest: string -> Option<string>, byPath: string -> Option<string>,
                            activeFile: Option<string>)
    requires IsUrl(CleanPath(src))
    ensures GetFullPath(GetFullPath(src, linkDest, byPath, activeFile), linkDest, byPath, activeFile)
            == GetFullPath(src, linkDest, byPath, activeFile)
  {
    CleanPathIdempotent(src);
  }

  /** `folder.replace(/\\/g, '/').replace(/^\/+|\/+$/g, '')`. */
  function NormalizeFolder(folder: string): (r: string)
    ensures '\\' !in r
    ensures r == [] || (r[0] != '/' && r[|r| - 1] != '/')
  {
    StripSlashes(ReplaceChar(folder, '\\', '/'))
  }

  function StripSlashes(s: string): (r: string)
    ensures r == [] || (r[0] != '/' && r[|r| - 1] != '/')
    ensures forall c :: c in r ==> c in s
    decreases |s|
  {
    if |s| > 0 && s[0] == '/' then StripSlashes(s[1..])
    else if |s| > 0 && s[|s| - 1] == '/' then StripSlashes(s[..|s| - 1])
    else s
  }

  /** The membership rule: the path, with `\` read as `/`, is the folder itself or lies
      below it. */
  predicate InFolder(path: string, folder: string)
  {
    var p := ReplaceChar(path, '\\', '/');
    var f := NormalizeFolder(folder);
    StartsWith(p, f + "/") || p == f
  }

  /** `isInIgnoredFolder(filePath, folder)`: false while no ignored folder is configured. */
  predicate IsInIgnoredFolder(ignoredFolders: seq<string>, path: string, folder: string)
  {
    |ignoredFolders| > 0 && InFolder(path, folder)
  }

  /** Membership respects segment boundaries: a longer path continues the folder with `/`
      (so `notes2/a.md` is not in `notes`). */
  lemma InFolderBoundary(path: string, folder: string)
    requires InFolder(path, folder)
    ensures |path| >= |NormalizeFolder(folder)|
    ensures |path| > |NormalizeFolder(folder)| ==> ReplaceChar(path, '\\', '/')[|NormalizeFolder(folder)|] == '/'
  {
  }

  /** Membership is inherited by enclosing folders. */
  lemma InFolderNested(path: string, inner: string, outer: string)
    requires InFolder(path, inner)
    requires StartsWith(NormalizeFolder(inner), NormalizeFolder(outer) + "/")
    ensures InFolder(path, outer)
  {
    var p := ReplaceChar(path, '\\', '/');
    var fi := NormalizeFolder(inner);
    var fo := NormalizeFolder(outer) + "/";
    assert fi[..|fo|] == fo;
    if p == fi {
      assert p[..|fo|] == fo;
    } else {
      assert p[..|fi| + 1] == fi + "/";
      assert p[..|fo|] == (fi + "/")[..|fo|];
    }
  }

  /** Slashes around the folder setting do not matter: a leading or a trailing `/` is
      stripped before the comparison. */
  lemma FolderSlashesIgnored(path: string, folder: string)
    ensures InFolder(path, "/" + folder) <==> InFolder(path, folder)
    ensures InFolder(path, folder + "/") <==> InFolder(path, folder)
  {
    assert ReplaceChar("/" + folder, '\\', '/') == "/" + ReplaceChar(folder, '\\', '/');
    assert ("/" + ReplaceChar(folder, '\\', '/'))[1..] == ReplaceChar(folder, '\\', '/');
    assert ReplaceChar(folder + "/", '\\', '/') == ReplaceChar(folder, '\\', '/') + "/";
    StripTrailingSlash(ReplaceChar(folder, '\\', '/'));
  }

  lemma {:induction false} StripTrailingSlash(s: string)
    ensures StripSlashes(s + "/") == StripSlashes(s)
    decreases |s|
  {
    if |s| == 0 {
      assert ("" + "/")[1..] == "";
    } else if s[0] == '/' {
      assert (s + "/")[1..] == s[1..] + "/";
      StripTrailingSlash(s[1..]);
    } else {
      assert (s + "/")[..|s|] == s;
    }
  }

  /** Backslashes in the path are read as `/`: a path and its slash form are in the
      same folders. */
  lemma PathBackslashesIgnored(path: string, folder: string)
    ensures InFolder(ReplaceChar(path, '\\', '/'), folder) <==> InFolder(path, folder)
  {
    var p := ReplaceChar(path, '\\', '/');
    assert ReplaceChar(p, '\\', '/') == p;
  }
}
