# MediaFlowz core, modelled in Dafny

MediaFlowz is an Obsidian plugin. It shows a toolbar under every image link in the
editor. The toolbar has a size slider and a delete button. The plugin also uploads pasted
media to a cloud service (Cloudinary, Bunny, Cloudflare or TwicPics), or saves it into a
per-note asset folder when the note lives in an "ignored" folder. On file open it strips
the `!` in front of image links, and on unload it puts the `!` back.

This project models the rule sets inside that glue:

- **Link scanning and rewriting.** The regular expressions become hand-written matchers
  (`Patterns`), and the JavaScript `/g` exec loop becomes a leftmost, non-overlapping scan
  (`Scan`).
  - `PatternForms` states which texts the resize, sized-wiki, wiki-embed and image-link
    matchers match and what they capture, in both directions.
  - The toolbar decorator's line scan (`Decorator`).
  - Nearest-link selection, resize rewrite and span deletion (`ImageWidget`).
  - Pattern-based link update and removal (`FileNames`).
  - The `!` strip/restore transform (`BangRewrite`, over the piece model of `Pieces`).
- **Slider arithmetic.** The size table and its inverse (`ImageWidget`), and the Alt+wheel
  clamp step with the enable/disable flag (`ImageResizer`).
- **Path and file-name utilities.**
  - `ImagePath`, `FileUtils` and `FileNames`.
  - The "path inside folder" rule. It is stated once, as `ImagePath.InFolder`, and reused by
    the ignored-folder test, the paste and rename handlers, and Bunny's zone choice.
- **Service selection and configuration.** `Factory`, `Bunny`, `Cloudinary` and `TwicPics`.
  SHA-1, the UTF-8 encoder and the clock are parameters.
- **Stores and settings edits.**
  - The media-info cache (`MediaInfo`).
  - The settings panel's list edits and merges (`SettingsTab`, `Settings`).
  - Translation lookup (`Translations`).
- **The plugin object (`MediaFlowz.Plugin`).** It holds the settings, the remembered
  original contents, the upload lock and a vault of notes, folders and attachments. Its
  handlers for file open, paste, rename and unload are methods that change these fields.
  Each is proved against a function that states its outcome. Where a Findings row below
  shows a defect in paste, rename or unload, the class runs the corrected behaviour, and
  the as-written code is modelled beside it.

The editor buffer is a class with one `text` field (`Editor.EditorBuffer`). An editor write
is a splice of that text. Offsets and `(line, ch)` positions are related by
`Editor.PosToOffset`.

Strings are `seq<char>`. Case-insensitive matching folds ASCII letters only, which is exact
for the patterns used here. Vault and metadata-cache lookups, `decodeURIComponent`,
`URL.pathname`, URL normalisation, upload calls, timestamps and the host locale are
function parameters.

Three behaviours of the source that a reader may not expect:
- `ImageWidget.loadSavedSize` looks up the FIRST sized wiki link, while the resize rewrites
  the LAST one.
- `MediaInfoService.detectMediaType` and the decorator's `detectLinkType` classify some
  strings differently (`MediaInfo.DetectDiffersFromDecorations`).
- `Translations.t` has no fallback, while `getTranslation` falls back to the key.

## Model

| member | source | states |
|---|---|---|
| Text.IndexOf | src/main.ts:374-375 | the result is -1 or an occurrence at or after `from`, and no occurrence lies before it |
| Text.Split | src/utils/ImagePathService.ts:28 | `split` yields at least one part and no part contains the separator |
| Text.SplitJoin | src/utils/ImagePathService.ts:28 | joining the parts of `split` with the separator gives back the input |
| Text.Splice | src/widgets/ImageWidget.ts:1029-1032 | a splice keeps the text before `a`, writes exactly the replacement, and keeps the text from `b` on |
| Text.ReplaceFirstChanges | src/main.ts:375-377 | replacing the first occurrence changes the text iff the pattern occurs and differs from the replacement |
| Text.ReplaceFirstUndo | src/main.ts:375 | replacing the first occurrence back with the original pattern restores the text |
| Text.ParseNatToString | src/widgets/ImageWidget.ts:1156-1158 | parsing the decimal rendering of a width gives back that width |
| Scan.NextMatch | src/widgets/MediaToolbarDecorator.ts:58 | one exec step returns the leftmost match at or after `from`, and there is no match before it |
| Scan.FindAll | src/widgets/MediaToolbarDecorator.ts:58-95 | the matches of a global scan are ordered, non-overlapping and inside the text |
| Scan.ChainOrdered | src/widgets/MediaToolbarDecorator.ts:58-95 | each found match ends before the next one starts |
| Scan.FindAllCovers | src/widgets/MediaToolbarDecorator.ts:58 | every position where the pattern matches lies inside some reported match |
| Scan.ReplaceByTextIdentity | src/main.ts:210-218 | replacing every match by its own text leaves the string unchanged |
| Scan.NoMatchNoChange | src/utils/fileNameService.ts:218-238 | a replace-all with no match returns the text unchanged |
| Patterns.HasImageExtIff | src/widgets/MediaToolbarDecorator.ts:56 | the image-extension test holds iff `.jpg`, `.jpeg`, `.png`, `.gif`, `.svg` or `.webp` (any case) occurs in the string |
| Patterns.SizedMarkdownAt | src/widgets/MediaToolbarDecorator.ts:56 | a recognised `[alt\|size](url)` link starts with `[`, and its alt text has no `]` and no `\|` |
| Patterns.SizeToken | src/widgets/ImageWidget.ts:1156 | a captured size is a non-empty run of digits |
| Patterns.ParenUrl | src/widgets/ImageWidget.ts:977 | the URL read from `](...)` contains no `)` and no line break |
| Patterns.WikiExtAt | src/main.ts:211 | a wiki image link is recognised iff `[[` opens it, the first `]` after it starts `]]`, and the text in between has an image extension |
| Patterns.MarkdownExtAt | src/main.ts:211 | a markdown image link is recognised iff `](` follows the label and the URL before the first `)` has an image extension after its first character |
| Patterns.SizedWikiAt | src/widgets/ImageWidget.ts:1051 | a match of `[[path\|n]]` is exactly that text, with `n` a non-empty digit run |
| Patterns.PrefixedImageAt | src/utils/fileNameService.ts:103 | a match of the prefix pattern ends in `.` + letters + `)` |
| Patterns.LongestPath | src/utils/fileNameService.ts:103 | the greedy path group takes the last position where the rest of the pattern still matches |
| PatternForms.SizedMarkdownSound | src/widgets/MediaToolbarDecorator.ts:56 | a match of the resize pattern is the text `[alt](url)` or `[alt\|size](url)` standing at the match position, its label free of `]` and `\|`, its size digits, its url free of `)` and, where the pattern asks for one, with an image extension after its first character; the captures are those parts |
| PatternForms.SizedMarkdownComplete | src/widgets/ImageWidget.ts:1127 | conversely, every link `[alt](url)` or `[alt\|size](url)` whose parts the pattern allows is matched where it stands, with exactly those captures |
| PatternForms.SizedWikiSound | src/widgets/ImageWidget.ts:1051 | a match of `[[path\|(\d+)]]` is the text `[[path\|size]]` with a non-empty digit size as its capture |
| PatternForms.SizedWikiComplete | src/widgets/ImageWidget.ts:1178 | conversely, every `[[path\|size]]` with a non-empty digit size is matched where it stands |
| PatternForms.WikiExtSound | src/widgets/MediaToolbarDecorator.ts:99 | a match of the wiki image pattern is the text `[[inner]]` whose inner text has no `]` and carries an image extension, the inner text being the capture |
| PatternForms.WikiExtComplete | src/main.ts:211 | conversely, every `[[inner]]` with no `]` inside and an image extension is matched where it stands |
| PatternForms.ImageLinkSound | src/utils/fileNameService.ts:185-205 | a match of a wiki, markdown or bare markdown pattern is the link opening + file name + tail + closing of that shape, the tail being empty, `?` and no closing bracket for a URL, or `\|` and digits for a local path; the markdown label has no `]` |
| PatternForms.ImageLinkComplete | src/utils/fileNameService.ts:185-205 | conversely, every such link is matched where it stands, with its label captured |
| Editor.OffsetToPos | src/widgets/ImageWidget.ts:1029-1031 | `offsetToPos` is a right inverse of `posToOffset` |
| Editor.SourcePosIsEditorPos | src/widgets/ImageWidget.ts:1003-1006 | the `(line, ch)` the widget computes from an index maps back to that index |
| Editor.InsertKeepsPos | src/main.ts:353-356 | inserting at a cursor leaves that cursor's offset unchanged |
| Editor.EditorBuffer.SetValue | src/main.ts:221 | `setValue` replaces the whole text |
| Editor.EditorBuffer.ReplaceRange | src/widgets/ImageWidget.ts:1029-1032 | `replaceRange` splices the replacement over exactly the range between the two positions |
| Media.HostType | src/widgets/MediaToolbarDecorator.ts:135-140 | hosts are checked in priority order: each outcome (cloudinary, bunny/b-cdn, cloudflare, twicpics) holds exactly when its host occurs and no earlier one does; external exactly when no host occurs |
| Decorator.DetectLinkType | src/widgets/MediaToolbarDecorator.ts:134-144 | an http(s) URL gets its host type; any other string is WIKI iff it contains `[[`, else LOCAL |
| Decorator.MarkdownInfo | src/widgets/MediaToolbarDecorator.ts:62-76 | the alt text is the label, and `originalUrl` is `url\|size` when a size is present, else `url` |
| Decorator.WikiInfo | src/widgets/MediaToolbarDecorator.ts:105-109 | the target is the inner text before the first `\|` |
| Decorator.WikiInfoParts | src/widgets/MediaToolbarDecorator.ts:105-109 | for `target\|alt`, the target is the first part and the alt text the second |
| Decorator.AcceptDisjoint | src/widgets/MediaToolbarDecorator.ts:61-94 | accepting a match keeps widgets disjoint, never lowers `lastPos` and only appends |
| Decorator.ScanLineDisjoint | src/widgets/MediaToolbarDecorator.ts:56-128 | scanning one line keeps widgets disjoint and `lastPos` inside the line |
| Decorator.ScanLinesDisjoint | src/widgets/MediaToolbarDecorator.ts:51-129 | scanning all lines keeps the accepted spans disjoint |
| Decorator.DecorationsDisjoint | src/widgets/MediaToolbarDecorator.ts:46-132 | every widget sits after its link's start, and each widget comes at or before the start of every later link, so the spans never overlap |
| Decorator.ChainAllAccepted | src/widgets/MediaToolbarDecorator.ts:58-95 | on a fresh line every markdown match is accepted, in order |
| Decorator.MarkdownLinksKept | src/widgets/MediaToolbarDecorator.ts:56-95 | every markdown link of a line gets its widget |
| Decorator.WikiBeforeMarkdownSkipped | src/widgets/MediaToolbarDecorator.ts:98-103 | a wiki match starting before the end of the last markdown match adds no widget |
| Decorator.MediaToolbarDecorator.constructor | src/widgets/MediaToolbarDecorator.ts:20-23 | the decorations are built from the document |
| Decorator.MediaToolbarDecorator.Update | src/widgets/MediaToolbarDecorator.ts:29-44 | decorations are rebuilt iff the document changed and no transaction carries the media-transform effect |
| Decorator.MediaToolbarDecorator.Destroy | src/widgets/MediaToolbarDecorator.ts:146-148 | the decorations become empty |
| Decorator.BuildDecorations | src/widgets/MediaToolbarDecorator.ts:46-132 | the loop over lines and exec matches yields exactly the specified decorations |
| Decorator.ScanAllLines | src/widgets/MediaToolbarDecorator.ts:51-129 | the loop over the document's lines, each starting after the previous line's break, yields the specified scan of all lines |
| Decorator.ScanNextLine | src/widgets/MediaToolbarDecorator.ts:51-53 | one turn of the line loop scans line `i` and moves the line start past its break, leaving the scan of the remaining lines unchanged |
| Decorator.ScanLineLoops | src/widgets/MediaToolbarDecorator.ts:56-128 | the markdown loop, then the wiki loop, over one line compute the specified scan of that line |
| Decorator.ScanLoop | src/widgets/MediaToolbarDecorator.ts:58-95 | the exec loop with the `start < lastPos` skip computes the specified scan |
| Decorator.AddUnlessBefore | src/widgets/MediaToolbarDecorator.ts:61-94 | a match starting before `lastPos` is skipped; otherwise its widget is added and `lastPos` moves to its end |
| ImageWidget.PositionFor | src/widgets/ImageWidget.ts:1162-1167 | the position is the smallest one whose pixels are at least the width, or 5 above 800 |
| ImageWidget.PositionOfPixels | src/widgets/ImageWidget.ts:1162-1167 | position → pixels → position is the identity |
| ImageWidget.PositionForMonotone | src/widgets/ImageWidget.ts:1162-1167 | a larger width never maps to a smaller position |
| ImageWidget.PositionForWidth | src/widgets/ImageWidget.ts:1162-1167 | the loop over the size table returns the specified position |
| ImageWidget.DefaultPosition | src/widgets/ImageWidget.ts:1199-1209 | the size names give 1…5 and anything else gives 3 |
| ImageWidget.HandlerAgreesWithLinkType | src/widgets/ImageWidget.ts:66-72 | the handler is external iff the decorator calls the URL external, and cloud iff it names a known host |
| ImageWidget.HandlerDelete | src/widgets/ImageWidget.ts:83-90 | deleting an external image sends no request; a local one deletes its path and a cloud one its URL |
| ImageWidget.UpdateImageUrlParts | src/widgets/ImageWidget.ts:1097-1109 | the new link is the cleaned path, then `\|`, then the width |
| ImageWidget.UpdateImageUrlIdempotent | src/widgets/ImageWidget.ts:1097-1109 | applying the update twice with one width gives the same link |
| ImageWidget.Nearest | src/widgets/ImageWidget.ts:975-994 | the chosen index minimises the distance to the start position, and the strict `<` makes the first one win ties |
| ImageWidget.Kept | src/widgets/ImageWidget.ts:986 | the filter keeps exactly the matches that pass the test |
| ImageWidget.NearestMatchIsNearest | src/widgets/ImageWidget.ts:975-994 | the nearest match is at least as close as every candidate, and strictly closer than every earlier one |
| ImageWidget.NearestAppend | src/widgets/ImageWidget.ts:987-991 | one loop step replaces the best match only when the new one is strictly closer |
| ImageWidget.NearestKept | src/widgets/ImageWidget.ts:975-994 | the loop over matches computes the nearest kept match |
| ImageWidget.LastMatch | src/widgets/ImageWidget.ts:1055-1059 | the loop keeps the last match of the scan |
| ImageWidget.ResizeTarget | src/widgets/ImageWidget.ts:957-1061 | an external resize targets a sized markdown link with the same normalised URL; a local resize targets a `[[path\|n]]` link; no target means no candidate |
| ImageWidget.ResizeRewrite | src/widgets/ImageWidget.ts:1003-1067 | a rewrite exists iff a target exists, and its span lies inside the text |
| ImageWidget.RewriteOfTarget | src/widgets/ImageWidget.ts:1003-1067 | the rewrite replaces exactly `[start, start+length)` of the target with the new link text |
| ImageWidget.ExternalRewriteRematch | src/widgets/ImageWidget.ts:1013-1014 | the written `[alt\|width](url)` is matched again with the same alt, width and URL |
| ImageWidget.WikiRewriteRematch | src/widgets/ImageWidget.ts:1067 | the written `[[path\|width]]` is matched again with that width |
| ImageWidget.ResizeRereads | src/widgets/ImageWidget.ts:1003-1080 | after a resize the rewritten span reads back as a link carrying the new width |
| ImageWidget.LocateResizeTarget | src/widgets/ImageWidget.ts:957-1061 | the search loops compute the specified target |
| ImageWidget.UpdateLinkInEditor | src/widgets/ImageWidget.ts:942-1095 | the editor text becomes the specified resize of the old text |
| ImageWidget.SavedSize | src/widgets/ImageWidget.ts:1111-1194 | a saved size is a non-empty digit run; with no editor there is none |
| ImageWidget.SavedPosition | src/widgets/ImageWidget.ts:1111-1210 | the position is in 1..5, and is the default one when no size is found |
| ImageWidget.LoadSavedSize | src/widgets/ImageWidget.ts:1111-1210 | the loops compute the specified position |
| ImageWidget.LoadAfterExternalResize | src/widgets/ImageWidget.ts:1127-1167 | after an external resize to position p, loading reads back p |
| ImageWidget.LoadAfterWikiResize | src/widgets/ImageWidget.ts:1176-1191 | after a wiki resize to position p, loading reads back p |
| ImageWidget.DeleteFileName | src/widgets/ImageWidget.ts:569-576 | a non-`app://` URL is used as is; an `app://` URL gives a name with no `/` and no `?` |
| ImageWidget.CandidatesAreMatches | src/widgets/ImageWidget.ts:578-596 | every candidate is a match of one of the patterns that contains the file name |
| ImageWidget.CandidatesSpan | src/widgets/ImageWidget.ts:578-596 | every candidate is the text of the note it spans, so cutting it out is well defined |
| ImageWidget.DeleteTargetIsNearest | src/widgets/ImageWidget.ts:578-596 | the chosen link exists iff some candidate exists, and it is a nearest candidate |
| ImageWidget.CutLink | src/widgets/ImageWidget.ts:598-602 | only the chosen span disappears: the text before and after it is kept |
| ImageWidget.FindDeleteTarget | src/widgets/ImageWidget.ts:578-596 | the nested loops compute the specified target |
| ImageWidget.DeleteImageLink | src/widgets/ImageWidget.ts:566-621 | a link is removed iff a target exists, and the text becomes the text without that span |
| ImageWidget.SizeSlider.constructor | src/widgets/ImageWidget.ts:419-431 | the slider starts with no last width, not dragging, no timer, and shows the saved size |
| ImageWidget.SizeSlider.LinkUpdate | src/widgets/ImageWidget.ts:442-452 | a link update is scheduled iff the new link differs from the original one |
| ImageWidget.SizeSlider.UpdateSize | src/widgets/ImageWidget.ts:433-457 | nothing happens when the width equals the last width; otherwise it is recorded and shown, and the link update is scheduled |
| ImageWidget.SizeSlider.MouseDown | src/widgets/ImageWidget.ts:462-465 | dragging starts and nothing else changes |
| ImageWidget.SizeSlider.MouseUp | src/widgets/ImageWidget.ts:467-473 | dragging stops and any pending timer is dropped; if the width for the position is the one last applied, nothing else changes, otherwise it becomes the last width, is drawn, and a link update is pending exactly when the rewritten link differs from the original |
| ImageWidget.SizeSlider.MouseLeave | src/widgets/ImageWidget.ts:475-483 | when not dragging, nothing changes; while dragging, it does exactly what `mouseup` does: the same width / display / pending-link-update case split |
| ImageWidget.SizeSlider.Input | src/widgets/ImageWidget.ts:485-498 | the width is shown at once and a size update is scheduled |
| ImageWidget.SizeSlider.Fire | src/widgets/ImageWidget.ts:449-497 | a fired link timer rewrites the editor with the specified resize and clears; a fired size timer leaves the editor alone and runs `updateSize` with the full case split on the width of its position; no timer changes nothing; only a size timer changes the last width or the drawn width |
| FileUtils.SanitizeFileName | src/utils/fileUtils.ts:6-12 | the result has at most 50 characters from `a-z0-9-`, no `--`, and does not start with `-`; when the slug with its end dashes stripped has at most 50 characters, it does not end in `-` either (the longer case is the Findings row) |
| FileUtils.SanitizeKeepsTrailingDash | src/utils/fileUtils.ts:9-11 | a 49-character slug followed by ` b` sanitises to a name ending in `-` |
| FileUtils.SanitizeFileNameTrimmed | src/utils/fileUtils.ts:6-12 | the corrected sanitiser also never ends with `-` |
| FileUtils.StripKeepsUndashedEnds | src/utils/fileUtils.ts:10 | stripping dashes leaves a string with undashed ends unchanged |
| FileUtils.CollapseShape | src/utils/fileUtils.ts:8-9 | after replacing runs of other characters by `-`, the text has only `a-z0-9-` and no `--` |
| FileUtils.GetFileExtension | src/utils/fileUtils.ts:19-21 | the extension is the lower-cased text after the last `.` (some `.` with no `.` after it), or the whole lower-cased name when it has no `.`; it contains no `.` |
| FileUtils.ImageFileHasLinkExtension | src/utils/fileUtils.ts:27-30 | a dotted name that `isImageFile` accepts carries an extension the link patterns recognise |
| ImagePath.CleanPath | src/utils/ImagePathService.ts:27-29 | the cleaned path has no `\|` and no surrounding whitespace |
| ImagePath.CleanPathIdempotent | src/utils/ImagePathService.ts:27-29 | cleaning twice is cleaning once |
| ImagePath.CleanPathDropsSize | src/utils/ImagePathService.ts:28 | `p\|w` cleans to the trimmed `p` |
| ImagePath.GetFullPath | src/utils/ImagePathService.ts:34-72 | an http(s) source is returned cleaned; a resolved link is returned as resolved; an unresolvable source is returned unchanged |
| ImagePath.GetFullPathUrlFixed | src/utils/ImagePathService.ts:36-41 | resolving an http(s) URL twice is resolving it once |
| ImagePath.NormalizeFolder | src/utils/ImagePathService.ts:124 | a normalised folder has no `\` and no leading or trailing `/` |
| ImagePath.InFolderBoundary | src/utils/ImagePathService.ts:124-126 | a path inside a folder equals it or continues it with `/` |
| ImagePath.InFolderNested | src/utils/ImagePathService.ts:124-126 | a path inside a subfolder is inside its parent folder |
| ImagePath.FolderSlashesIgnored | src/utils/ImagePathService.ts:125 | for every path and folder, a leading or a trailing `/` on the folder setting does not change membership |
| ImagePath.PathBackslashesIgnored | src/utils/ImagePathService.ts:124 | for every path and folder, a path and its form with `\` read as `/` are in the same folders |
| FileNames.ToKebabCase | src/utils/fileNameService.ts:38-45 | the output contains only `a-z`, `0-9` and `-` |
| FileNames.KebabIdempotent | src/utils/fileNameService.ts:38-45 | kebab-casing a kebab string changes nothing |
| FileNames.KebabOfTitle | src/utils/fileNameService.ts:38-45 | a title of letters, digits and single spaces becomes its lower-cased, dashed form |
| FileNames.SpellAmpersandRun | src/utils/fileNameService.ts:42 | a run of `&` becomes `and` |
| FileNames.GetFilePrefix | src/utils/fileNameService.ts:47-59 | a non-empty `img-prefix` wins; otherwise the kebab-cased basename |
| FileNames.GenerateFileNameParts | src/utils/fileNameService.ts:61-76 | reading the name back gives the kebab-cased prefix (or the name before its first `.`) before `_`, then the timestamp digits, and the original extension after the last `.` |
| FileNames.GenerateFileNameUnique | src/utils/fileNameService.ts:61-76 | different timestamps give different names |
| FileNames.EscapeRoundTrip | src/utils/fileNameService.ts:137-139 | dropping the inserted backslashes recovers the input |
| FileNames.CleanImageUrl | src/utils/fileNameService.ts:161-169 | the result is a prefix of the URL with no `\|`, and with no `?` for http inputs |
| FileNames.CleanImageUrlIdempotent | src/utils/fileNameService.ts:161-169 | cleaning twice is cleaning once |
| FileNames.GetImagePatterns | src/utils/fileNameService.ts:176-210 | the wiki, markdown and no-alt patterns share one target and one remote flag; the flag is set iff the cleaned URL starts with `http` and not `app://`, and a non-`app://` target is the cleaned URL |
| FileNames.RemoveImageLinks | src/utils/fileNameService.ts:218-238 | each pattern in turn deletes all its matches, and the content never grows |
| FileNames.RemoveAllShrinks | src/utils/fileNameService.ts:226-232 | a pattern with a match strictly shortens the content |
| FileNames.RemoveWithoutLinks | src/utils/fileNameService.ts:218-238 | content with no link to the image is unchanged by removal |
| FileNames.UpdateWithoutLinks | src/utils/fileNameService.ts:247-287 | content with no link to the old URL is unchanged by the update |
| FileNames.RetargetKeeps | src/utils/fileNameService.ts:259-284 | a link the old pattern matches is an optional `!`, its opening (with the alt text), the old target, a tail and its closing; its replacement keeps the `!`, the opening and the closing and puts the cleaned new URL in place of target and tail, so `\|size` or `?query` is dropped |
| FileNames.UpdateSingleLink | src/utils/fileNameService.ts:247-288 | `updateImageLinks` on a note whose one link to the old URL is found by one pattern only: the text before the link, its replacement, and the text after it |
| FileNames.UpdateSingleLinkText | src/utils/fileNameService.ts:247-288 | the same note-level result spelled out: `pre + link + post` becomes `pre + ! + opening + cleaned new URL + closing + post`, with the link's own `!` and alt text |
| FileNames.PrefixedForm | src/utils/fileNameService.ts:103 | a prefixed image match is `![alt](dir PREFIX_digits.ext)` with at least one digit and the match's own alt, directory and extension |
| FileNames.PrefixRewriteEach | src/utils/fileNameService.ts:114-118 | every match of the scan is the text it spans, of the form `![alt](dir OLD_digits.ext)`, and is replaced by `![alt](dir NEW_stamp.ext)` |
| FileNames.UpdateSinglePrefixed | src/utils/fileNameService.ts:98-133 | a note with one prefixed link changes only in that link; it is reported unchanged iff the new link equals the old one, else rewritten with count 1 |
| FileNames.UpdateImagePrefixes | src/utils/fileNameService.ts:98-135 | the "no images" notice is shown iff no prefixed image link exists; otherwise the content changes and the count is the number of matches |
| FileNames.ExtensionOfPrefixedMatch | src/utils/fileNameService.ts:116 | the extension read from a match is the letters before its `)` |
| FileNames.NoBangNoPrefixedImage | src/utils/fileNameService.ts:103 | content without `!` has no prefixed image link |
| FileNames.OnFrontmatterUpdated | src/utils/fileNameService.ts:16-20 | prefixes are rewritten iff both prefixes are set and they differ |
| BangRewrite.RemoveBangs | src/main.ts:210-218 | the reference erasure of every `!` contains no `!` |
| BangRewrite.StripOnlyRemovesBangs | src/main.ts:210-218 | the file-open rewrite only removes `!` characters |
| BangRewrite.RestoreOnlyAddsBangs | src/main.ts:550-553 | the unload rewrite only adds `!` characters |
| BangRewrite.RestoreAsWrittenAddsOnePerLink | src/main.ts:550-553 | the unload rewrite adds exactly one `!` per matched link |
| BangRewrite.ScanWhole | src/main.ts:210-218 | on a note of prose and image links, each rewrite sets the `!` run in front of every link as specified |
| BangRewrite.StripThenRestore | src/main.ts:210-218 | stripping a note whose links all carry `!` removes exactly those `!`, and the as-written restore puts them back |
| BangRewrite.RestoreAsWrittenDoublesBangs | src/main.ts:550-553 | restoring a note whose links already carry `!` doubles each `!` |
| BangRewrite.RestoreAsWrittenExample | src/main.ts:550-553 | `![[a.png]]` restores to `!![[a.png]]` |
| BangRewrite.RestoreKeepsBangedLinks | src/main.ts:550-553 | the corrected restore leaves links that already carry `!` alone |
| BangRewrite.StripThenRestoreFixed | src/main.ts:550-557 | with the corrected restore, strip then restore returns the original note |
| Pieces.Bangs | src/main.ts:213-214 | a run of n `!` characters |
| NoteFolders.DirOf | src/main.ts:280 | the directory and the file name rebuild the path |
| NoteFolders.BasenameShape | src/main.ts:279 | the basename is the name before its last `.` |
| NoteFolders.RenameFindsPasteFolder | src/main.ts:437-439 | rename computes the same folder that paste created for the note |
| NoteFolders.AsWrittenMissesFolder | src/main.ts:437-439 | for a note `dir/a.mdx.md` the rename looks for `dir/ax.md`, while paste made `dir/a.mdx` |
| NoteFolders.SegmentAt | src/main.ts:499-502 | the first `(^\|/)oldBasename/` segment is found, and none lies before it |
| NoteFolders.RewriteEmbedPathMoves | src/main.ts:499-502 | the first segment is replaced by `newBasename/` and the rest of the path is kept |
| NoteFolders.RewriteEmbedPathChanges | src/main.ts:499-502 | the path changes iff the segment occurs and the basenames differ |
| NoteFolders.RewriteEmbedPathUndo | src/main.ts:499-502 | renaming back restores the path |
| NoteFolders.ChildMap | src/main.ts:463-470 | every key of the file map is the name or the basename of the child it maps to |
| NoteFolders.LastNamed | src/main.ts:466-469 | the index of the last child named by a key, -1 exactly when none is |
| NoteFolders.ChildMapLast | src/main.ts:463-470 | a key is in the file map iff some child has it as name or basename, and it maps to the last such child |
| NoteFolders.ChildMapFinds | src/main.ts:463-470 | the name and the basename of every child are keys of the file map (the entry may belong to a later child of the same name or basename) |
| NoteFolders.EmbedTarget | src/main.ts:484-506 | a link outside the old folder has no target; a file-map link resolves to its file-map entry; any other link resolves to its path with the old segment renamed, exactly when that is a vault file |
| NoteFolders.RewriteEmbed | src/main.ts:508-516 | an embed with a target whose pattern occurs has its first `![[link]]` replaced by `![[newLink]]`, the rest kept, and marks the note changed; otherwise the note is untouched |
| NoteFolders.RewriteNoteChanged | src/main.ts:514-527 | a note is marked changed iff at least one embed pattern was replaced |
| NoteFolders.RewriteNoteOutside | src/main.ts:472-529 | a note with no embed inside the old folder is left unchanged |
| Paste.MediaFiles | src/main.ts:344-349 | exactly the files whose MIME type starts with `image/`, `video/` or `audio/` are kept, in order |
| Paste.Placeholder | src/main.ts:355 | the placeholder starts with `!` |
| Paste.UploadedLink | src/main.ts:375 | an uploaded link is `[](url)` and a newline |
| Paste.LinkHoldsNoPlaceholder | src/main.ts:375-377 | an uploaded link never contains the placeholder |
| Paste.Outcome | src/main.ts:359-371 | a locked file is skipped; a link is produced only from a successful upload under the generated name |
| Paste.Outcomes | src/main.ts:359-394 | one outcome per media file, in order |
| Paste.AsWrittenInertWithoutPlaceholder | src/main.ts:375-379 | without the placeholder the per-file replacement changes nothing |
| Paste.AsWrittenLinksOnlyFirst | src/main.ts:353-385 | with two uploads into one placeholder, only the first link is written |
| Paste.UploadsInsertEvery | src/main.ts:353-385 | with the corrected replacement, every successful upload's link is in the note |
| Paste.SingleFileAgrees | src/main.ts:353-385 | for one file the corrected and the as-written replacement agree |
| Paste.GeneratedNames | src/main.ts:295 | each file gets its generated name |
| Paste.CreateAllBounds | src/main.ts:294-320 | created paths avoid existing ones, at most one per file, and a link is written iff a file is created |
| Paste.CreateAllPaths | src/main.ts:294-300 | a path is created iff it is a generated path in the asset folder that did not exist |
| Settings.MergeLaws | src/core/SettingsTab.ts:310-323 | merging is identity on the empty patch, idempotent, composes, and a full patch wins |
| Settings.MergeUnchanged | src/core/SettingsTab.ts:310-323 | a merge changes nothing iff every given key already has its value |
| Factory.SelectService | src/services/MediaServiceFactory.ts:16-51 | `forceLocal` or service `local` gives local, and any unknown service gives local |
| Factory.SelectsCloudinary | src/services/MediaServiceFactory.ts:26-32 | Cloudinary is chosen iff it is requested and `CloudinaryService.isConfigured` holds |
| Factory.SelectsCloudflare | src/services/MediaServiceFactory.ts:34-39 | Cloudflare is chosen iff it is requested with an account id and an images token |
| Factory.SelectsBunny | src/services/MediaServiceFactory.ts:41-46 | Bunny is chosen iff it is requested and `BunnyService.isConfigured` holds |
| Factory.TwicPicsFallsBackToLocal | src/services/MediaServiceFactory.ts:48-50 | `twicpics` yields the local service |
| Factory.MediaServiceFactory.GetService | src/services/MediaServiceFactory.ts:16-51 | the call fails iff the factory was not initialised; otherwise it returns the selected service |
| Factory.MediaServiceFactory.Initialize | src/services/MediaServiceFactory.ts:12-14 | the factory becomes initialised |
| Factory.MediaServiceFactory.Cleanup | src/services/MediaServiceFactory.ts:54-60 | the factory is no longer initialised |
| Bunny.Normalize | src/services/BunnyService.ts:49-55 | zones default to `[]`, the default name to `''`, and folder mapping is off only when saved as false |
| Bunny.FindByName | src/services/BunnyService.ts:99 | `find` returns the first zone with that name, or none |
| Bunny.DefaultStorageZone | src/services/BunnyService.ts:93-106 | it fails iff there is no zone; otherwise the named default if present, else the first zone |
| Bunny.FirstServingFrom | src/services/BunnyService.ts:75-83 | the first zone, in list order, with a folder equal to the path or a `/`-prefix of it |
| Bunny.StorageZoneForPathChoice | src/services/BunnyService.ts:68-86 | with folder mapping on, a serving zone exists and the earliest one is chosen |
| Bunny.ConfiguredZoneUsable | src/services/BunnyService.ts:265-268 | when configured, the zone chosen for any path has an access key and a name |
| Bunny.DropTrailingSlash | src/services/BunnyService.ts:113-117 | at most one trailing `/` is removed |
| Bunny.CdnBase | src/services/BunnyService.ts:108-118 | the custom CDN wins over the pull-zone URL |
| Bunny.UploadPath | src/services/BunnyService.ts:147-178 | a given non-empty path is used as is; otherwise the path is `{now}-{name}`, under `videos/` for a video |
| Bunny.PlanUpload | src/services/BunnyService.ts:120-203 | upload fails iff not configured; the public id is the upload path and the kind follows the MIME type; the PUT goes to `https://storage.bunnycdn.com/{zone}/{publicId}` of the chosen zone with that zone's access key and the file's MIME type as content type, and the URL handed back is the zone's CDN base, `/` and the public id |
| Bunny.UploadUrlEndsWithPublicId | src/services/BunnyService.ts:163-174 | the URL is the CDN base, `/` and the public id; the storage URL ends in zone name and path |
| Bunny.BunnyService.constructor | src/services/BunnyService.ts:20-40 | settings start normalised from the current ones |
| Bunny.BunnyService.HandleSettingsUpdate | src/services/BunnyService.ts:49-56 | new Bunny settings are normalised and stored; none leaves them |
| Bunny.BunnyService.GetStorageZoneForPath | src/services/BunnyService.ts:68-86 | the nested loops with early return compute the specified zone |
| Bunny.BunnyService.Upload | src/services/BunnyService.ts:120-145 | the upload request is the specified plan |
| Cloudinary.GetUrl | src/services/CloudinaryService.ts:224-235 | it fails iff not configured; the URL is exactly `https://res.cloudinary.com/{cloud}/image/upload/` then the transformation and `/` when one is given, then the public id |
| Cloudinary.GetUrlTransformation | src/services/CloudinaryService.ts:229-234 | a transformation is inserted as one more path segment before the public id |
| Cloudinary.SetEntry | src/services/CloudinaryService.ts:241 | setting a key keeps keys distinct and gives that key the new value |
| Cloudinary.Params | src/services/CloudinaryService.ts:238-243 | only string-valued fields are kept, each entry coming from a string field, with distinct keys (completeness and last-value-wins are the contracts of `Cloudinary.ParamsComplete` and `Cloudinary.ParamsLookup`) |
| Cloudinary.SortByKey | src/services/CloudinaryService.ts:245-246 | the entries are sorted by key and are a permutation of the input |
| Cloudinary.LessTotal | src/services/CloudinaryService.ts:246 | the key order is total on distinct keys |
| Cloudinary.LessTransitive | src/services/CloudinaryService.ts:246 | the key order is transitive |
| Cloudinary.Hex | src/services/CloudinaryService.ts:254-256 | two lowercase hex digits per byte |
| Cloudinary.HexRoundTrip | src/services/CloudinaryService.ts:254-256 | the hex rendering reads back to the digest |
| Cloudinary.Signature | src/services/CloudinaryService.ts:237-257 | the signature is twice as long as the digest and all lowercase hex |
| Cloudinary.SignatureReadsBack | src/services/CloudinaryService.ts:237-257 | the signature decodes to the SHA-1 of the canonical string plus the secret |
| Cloudinary.CanonicalSortsKeys | src/services/CloudinaryService.ts:245-248 | for two string fields: the canonical string lists both `key=value` pairs in key order joined by `&`, whichever was appended first |
| Cloudinary.CanonicalLastValueWins | src/services/CloudinaryService.ts:238-248 | for two string fields with one key: the key is signed once, with its last value |
| Cloudinary.ParamsLookup | src/services/CloudinaryService.ts:238-243 | for every key, `params.get(key)` is the text last appended under it, and absent when no string field carries the key |
| Cloudinary.ParamsComplete | src/services/CloudinaryService.ts:238-243 | every string field's key is in `params` |
| Cloudinary.SortedUnique | src/services/CloudinaryService.ts:245-246 | two key-sorted entry lists holding the same pairs are equal, so the sorted parameters are determined by their pairs |
| Cloudinary.CanonicalListsLastValues | src/services/CloudinaryService.ts:238-248 | for any fields: the canonical string joins a key-sorted list holding exactly the pairs `(key, text last appended under key)` |
| Cloudinary.CanonicalOrderFree | src/services/CloudinaryService.ts:238-248 | any two field lists leaving every key the same last text give the same canonical string, whatever the order of appending |
| Cloudinary.UploadSignatureCoversSecretOnly | src/services/CloudinaryService.ts:129-135 | the upload signature covers only the secret, because the file is not a string field |
| Cloudinary.DeleteSignatureCoversPublicId | src/services/CloudinaryService.ts:197-203 | the delete signature covers `public_id=…` and the secret |
| Cloudinary.UploadResourceType | src/services/CloudinaryService.ts:111-125 | the upload resource type is `video` iff the MIME type starts with `video/` |
| Cloudinary.DeleteResourceType | src/services/CloudinaryService.ts:194 | the delete resource type is `video` iff the public id starts with `video/` |
| Cloudinary.UploadRequest | src/services/CloudinaryService.ts:115-160 | it fails iff not configured; it posts to `/video/upload` or `/image/upload` by MIME type; the file comes first, then the preset or else the signature of the secret alone, then `transformation` and `folder` when non-empty and `tags` joined by `,` when given, in that order |
| Cloudinary.DeleteRequest | src/services/CloudinaryService.ts:183-204 | it fails iff not configured; it posts to `/video/destroy` or `/image/destroy` by public id; the public id is the first of two fields, and the second is the preset when one is set, else the signature over `public_id=…` and the secret |
| Cloudinary.CloudinaryService.HandleSettingsUpdate | src/services/CloudinaryService.ts:54-57 | the settings become the event's Cloudinary settings |
| TwicPics.ClientFor | src/services/TwicPicsService.ts:56-71 | the client's base URL is exactly `https://{domain}/v1` and its authorization header is exactly `Bearer {apiKey}` |
| TwicPics.Prepared | src/services/TwicPicsService.ts:78-83 | a client is set up from the settings unless one is already consistent with them |
| TwicPics.GetUrl | src/services/TwicPicsService.ts:147-158 | it fails iff there is no domain; the URL is exactly `https://{domain}/` then the transformation and `/` when one is given, then the public id |
| TwicPics.GetUrlTransformation | src/services/TwicPicsService.ts:152-157 | a transformation is one more path segment before the public id |
| TwicPics.PlanUpload | src/services/TwicPicsService.ts:77-125 | it succeeds iff settings exist; the result URL is `https://{domain}/{path}`, the public id is the path, the file is the first field and a non-empty folder the second, under `path`, and the kind is video iff the MIME type starts with `video/` |
| TwicPics.PlanDelete | src/services/TwicPicsService.ts:127-145 | the remove request goes to `…/v1/remove/{publicId}` with the key |
| TwicPics.UploadWithoutApiKey | src/services/TwicPicsService.ts:56-83 | a domain with no API key still uploads, with an empty bearer token |
| TwicPics.TwicPicsService.HandleSettingsUpdate | src/services/TwicPicsService.ts:33-36 | the TwicPics record of the event's settings is stored and the client is set up again from it |
| TwicPics.AsWrittenNeverConfigured | src/services/TwicPicsService.ts:33-36 | as written, the handler reads `twicpics` from the payload, so after settings events alone upload and delete fail with "TwicPics n'est pas configuré" |
| TwicPics.SettingsEventReachesUpload | src/services/TwicPicsService.ts:33-36 | read from the event's settings, a TwicPics record sets up the client and the next upload is posted to `https://{domain}/v1/upload` with `Bearer {apiKey}` |
| TwicPics.AsWrittenClientPaths | src/services/TwicPicsService.ts:56-71 | with the options as written (`baseUrl`), an upload is posted to the bare path `/upload` instead of `https://{domain}/v1/upload` |
| TwicPics.TwicPicsService.Upload | src/services/TwicPicsService.ts:77-125 | the request is the specified plan |
| TwicPics.TwicPicsService.Delete | src/services/TwicPicsService.ts:127-145 | the request is the specified plan |
| MediaInfo.DetectMediaType | src/services/MediaInfoService.ts:133-146 | http strings get their host type; others are WIKI iff they start with `[[` or end with `]]`, else LOCAL |
| MediaInfo.DetectAgreesWithDecorations | src/services/MediaInfoService.ts:133-146 | on http(s) URLs and on `[[` strings both classifiers agree |
| MediaInfo.DetectDiffersFromDecorations | src/services/MediaInfoService.ts:133-146 | `http` and `]]` are classified differently by the two |
| MediaInfo.UploadedInfo | src/services/MediaInfoService.ts:110-120 | an upload entry has both URLs equal to the URL, the file name as alt text and the detected type |
| MediaInfo.MediaInfoService.Get | src/services/MediaInfoService.ts:50-55 | a lookup succeeds iff the URL is cached, and returns its entry |
| MediaInfo.MediaInfoService.Set | src/services/MediaInfoService.ts:42-48 | the entry is stored under its `originalUrl`, overwriting; other keys are unchanged |
| MediaInfo.MediaInfoService.Remove | src/services/MediaInfoService.ts:57-63 | the URL is no longer cached; other keys are unchanged |
| MediaInfo.MediaInfoService.LoadCache | src/services/MediaInfoService.ts:72-86 | persisted entries replace the whole cache; without them the cache is unchanged |
| MediaInfo.MediaInfoService.SaveCache | src/services/MediaInfoService.ts:91-108 | with a plugin the store holds the cache; the cache is unchanged |
| MediaInfo.MediaInfoService.HandleMediaUploaded | src/services/MediaInfoService.ts:110-123 | the uploaded URL's entry is stored and other keys are unchanged |
| MediaInfo.MediaInfoService.HandleMediaDeleted | src/services/MediaInfoService.ts:125-131 | the entry keyed by the public id is removed and other keys are unchanged |
| MediaInfo.UploadSurvivesReload | src/services/MediaInfoService.ts:72-123 | with a plugin attached, an uploaded entry is found again after saving and reloading |
| ImageResizer.Attr | src/utils/ImageResizer.ts:65-67 | the value is the parsed attribute or the fallback, and is 0 only when the fallback is 0 (`parseFloat(...) \|\| fallback`, on whole numbers) |
| ImageResizer.Clamp | src/utils/ImageResizer.ts:69 | the value is clamped into `[min, max]` |
| ImageResizer.NextValueMoves | src/utils/ImageResizer.ts:64-69 | scrolling down steps down and scrolling up steps up, within `[min, max]` |
| ImageResizer.WidgetSliderStaysInSizes | src/utils/ImageResizer.ts:64-69 | with default attributes the value stays in 1..5 |
| ImageResizer.HandleScroll | src/utils/ImageResizer.ts:51-79 | the event is handled iff Alt is held over a preview; a found slider then gets the next value and exactly one input and one change event; an unhandled event leaves the slider's value and both event counts alone; the step, min and max attributes never change |
| ImageResizer.Resizer.Enable | src/utils/ImageResizer.ts:31-36 | the resizer is enabled and listening; a second enable changes nothing |
| ImageResizer.Resizer.Disable | src/utils/ImageResizer.ts:41-46 | the resizer is disabled and not listening; a second disable changes nothing |
| ImageResizer.Resizer.Wheel | src/utils/ImageResizer.ts:31-79 | wheel events reach the handler only while listening; a handled event moves a found slider one notch with one input and one change event, and an event not handled (not listening, or no Alt over a preview) leaves its value and both event counts alone |
| ImageResizer.EnableTwiceThenDisable | src/utils/ImageResizer.ts:31-46 | after enable, enable, disable, a wheel event changes nothing |
| SettingsTab.UpdateCloudinaryOnly | src/core/SettingsTab.ts:943-961 | only the Cloudinary config changes: given fields win, the rest are kept or filled with empty defaults |
| SettingsTab.UpdateBunnyOnly | src/core/SettingsTab.ts:1001-1017 | only the Bunny config changes: given fields win, the rest are kept or filled with empty defaults |
| SettingsTab.RemoveZone | src/core/SettingsTab.ts:606-613 | exactly the zone at the index is removed, and the default moves to the first remaining zone only if it was the removed one |
| SettingsTab.RemoveZoneIsPermutation | src/core/SettingsTab.ts:606-607 | the removed zone plus the rest is the old list |
| SettingsTab.Without | src/core/SettingsTab.ts:627 | the filter keeps exactly the other folders |
| SettingsTab.ReplaceByName | src/core/SettingsTab.ts:629-631 | zones with the name are replaced and the others kept |
| SettingsTab.RemoveFolderEffect | src/core/SettingsTab.ts:625-634 | the folder leaves that zone's list; zones with other names are unchanged |
| SettingsTab.AddZone | src/core/SettingsTab.ts:684-702 | a zone is appended only when name, key and pull-zone URL are set; it becomes the default only if it is the only zone |
| SettingsTab.RemoveZoneKeepsDefault | src/core/SettingsTab.ts:606-613 | removing a zone keeps the default naming a zone |
| SettingsTab.AddZoneKeepsDefault | src/core/SettingsTab.ts:684-702 | adding a zone keeps the default naming a zone |
| SettingsTab.DefaultZoneIsUsed | src/core/SettingsTab.ts:610-612 | a default the panel keeps is the zone Bunny uses by default |
| SettingsTab.AddIgnoredFolder | src/core/SettingsTab.ts:1225-1231 | the folder is added only if absent, so the list stays duplicate-free |
| SettingsTab.RemoveIgnoredFolder | src/core/SettingsTab.ts:1201-1209 | the list loses one entry and nothing else changes |
| SettingsTab.RemoveIgnoredFolderEffect | src/core/SettingsTab.ts:1203-1207 | exactly the entry at the index is removed, and adding it back restores the list up to order |
| SettingsTab.SwitchService | src/core/SettingsTab.ts:1048-1059 | the service is set and all four service configs are cleared |
| SettingsTab.SwitchFallsBackToLocal | src/core/SettingsTab.ts:1048-1059 | right after a switch the factory selects the local service |
| SettingsTab.SwitchThenFillSelectsCloudinary | src/core/SettingsTab.ts:1048-1059 | switching to Cloudinary and filling name, key and secret makes the factory select it |
| SettingsTab.SettingsTab.UpdateSettings | src/core/SettingsTab.ts:310-323 | the settings become the shallow merge and are saved |
| SettingsTab.SettingsTab.OnRemoveZone | src/core/SettingsTab.ts:605-613 | the settings become the specified removal and are saved |
| SettingsTab.SettingsTab.OnRemoveFolder | src/core/SettingsTab.ts:624-634 | the settings become the specified folder removal and are saved |
| SettingsTab.SettingsTab.OnAddZone | src/core/SettingsTab.ts:684-702 | a zone is added and saved iff all three fields are set |
| SettingsTab.SettingsTab.OnAddIgnoredFolder | src/core/SettingsTab.ts:1225-1231 | the folder is added and saved only when absent |
| SettingsTab.SettingsTab.OnRemoveIgnoredFolder | src/core/SettingsTab.ts:1201-1209 | the entry is removed and the settings are saved |
| SettingsTab.SettingsTab.OnServiceChange | src/core/SettingsTab.ts:1041-1059 | the settings become the specified switch and are saved |
| SettingsTab.SettingsTab.OnUseNoteFoldersChange | src/core/SettingsTab.ts:1246-1248 | the flag is set and saved, and nothing else changes |
| Translations.CurrentLocale | src/core/Translations.ts:23-26 | the locale is `fr` iff the host locale is exactly `fr` |
| Translations.GetTranslation | src/core/Translations.ts:28-37 | the current locale's entry, or the key when the entry is missing or empty |
| Translations.Translations.T | src/core/Translations.ts:16-19 | the class uses the same locale rule and has no fallback |
| Translations.TAgreesWithGetTranslation | src/core/Translations.ts:16-37 | the two lookups agree except where `getTranslation` falls back to the key |
| Translations.TranslationNeverEmpty | src/core/Translations.ts:28-37 | a non-empty key never translates to the empty string |
| Translations.CompleteNeverFallsBack | src/core/Translations.ts:28-37 | with complete tables, every key translates to its table entry |
| MediaFlowz.IsIgnored | src/main.ts:266-270 | a note is ignored iff some configured folder contains it by the one folder rule |
| MediaFlowz.MovedShape | src/main.ts:450 | renaming a folder moves it and everything under it, and leaves other paths alone |
| MediaFlowz.MovedUndo | src/main.ts:450 | renaming back restores every moved path |
| MediaFlowz.RenamedNotes | src/main.ts:472-529 | the rename rewrite keeps the set of notes |
| MediaFlowz.RenameKeepsOtherNotes | src/main.ts:472-529 | a note with no embed in the old folder is unchanged |
| MediaFlowz.RestoredNotes | src/main.ts:543-557 | unload keeps the set of notes |
| MediaFlowz.UnloadRestoresOpenedNote | src/main.ts:543-557 | a note stripped on open gets its `!` back on unload |
| MediaFlowz.UploadPasteLinksEvery | src/main.ts:351-394 | every successful upload's link ends up in the note |
| MediaFlowz.RewriteNoteContent | src/main.ts:472-527 | the loop over embeds computes the specified note edit |
| MediaFlowz.Plugin.constructor | src/main.ts:32-59 | a fresh plugin holds no upload service and empty remembered contents (`originalContents`) and upload lock (`uploadLock`); its settings start at the defaults, where the source leaves them unset until `loadSettings` |
| MediaFlowz.Plugin.LoadSettings | src/main.ts:579-599 | the settings become the defaults merged with the saved data |
| MediaFlowz.Plugin.OnLoad | src/main.ts:61-80 | settings are loaded and the factory's service is selected |
| MediaFlowz.Plugin.OnSettingsUpdated | src/main.ts:242-247 | the settings are replaced and an existing service is selected again |
| MediaFlowz.Plugin.OnFileOpen | src/main.ts:204-225 | the first content of an opened note is remembered, and the editor is written only when stripping changed the text |
| MediaFlowz.Plugin.OnPaste | src/main.ts:262-404 | nothing changes without files, without an active note, or for an ignored note when note folders are off; an ignored note with note folders on gets its asset folder, new files and links; any other note gets the upload paste; the upload lock is as before |
| MediaFlowz.Plugin.PasteIntoNoteFolder | src/main.ts:272-327 | the asset folder is created if missing, new files are added, and their links are inserted at the cursor |
| MediaFlowz.Plugin.WriteFiles | src/main.ts:294-320 | the loop over files creates the specified files and inserts the specified links |
| MediaFlowz.Plugin.WriteFile | src/main.ts:296-305 | an existing path changes nothing; otherwise the file is created and its link inserted at the cursor |
| MediaFlowz.Plugin.PasteUploads | src/main.ts:351-394 | the placeholder is inserted, every media file is uploaded, and the links replace it; the lock is as before |
| MediaFlowz.Plugin.UploadAll | src/main.ts:359-394 | the upload loop produces the links of the specified outcomes, and every lock it takes is released |
| MediaFlowz.Plugin.OnRename | src/main.ts:418-538 | a rename that does not apply changes nothing; one that applies moves the asset folder and its files and rewrites the notes |
| MediaFlowz.Plugin.RewriteNotes | src/main.ts:472-529 | the loop over notes computes the specified rewrite |
| MediaFlowz.Plugin.OnUnload | src/main.ts:542-577 | every remembered note gets its `!` restored and the upload lock is cleared |

## Left out

- Network I/O is a parameter. This covers the HTTP calls of the Bunny, Cloudinary and TwicPics upload and delete code, and the HEAD request for file sizes. Only the request plans and result URLs are modelled.
- SHA-1 and the text encoder are uninterpreted function parameters.
- DOM and UI code is not modelled. This covers widget construction, info bars, buttons, settings panels, folder menus, styles, the delete-confirmation modal, the view mode, the ribbon and notices. Notices and their translations are not modelled either.
- Timers and event wiring are not modelled: debounce delays, `setTimeout`, `requestAnimationFrame`, the event bus, singletons and their `cleanup`, and the 100 ms wait in rename.
- The slider keeps one pending timer. Its delay is not modelled; the timer fires when `ImageWidget.SizeSlider.Fire` is called.
- Concurrency is not modelled. Each paste, rename or unload runs to completion.
  - `processingLock` is not modelled.
  - `uploadLock` models only the locks held by other pastes.
  - Unload's asynchronous reads and writes are modelled as one sequential pass over the remembered notes.
- Every file of one paste shares one timestamp `now`.
- Vault and metadata-cache lookups are parameters. These are link destinations, link text, the listing of a renamed folder and a note's embeds.
- `LocalMediaService`, `ReplicateService` and `useI18n` are not part of this model.
- The non-URL branches of `getFullPath` are modelled with lookup parameters only.
- URL normalisation, `decodeURIComponent` and `URL.pathname` are given functions.
- Image compression and floating-point formatting are left out.
- `replace` replacement patterns such as `$&` in inserted text are not interpreted.
- Names interpolated into a regular expression without escaping are taken literally. These are `oldPrefix` in the prefix update, `oldBasename` in rename, and the path escaped by the widget's three-pass `escapeRegExp`.
- Only ASCII case folding is modelled, in kebab-casing and sanitising.
- BangRewrite.StripThenRestoreFixed: the round trip is proved for notes whose prose has no `[` and no `!`. Prose with brackets can form links the piece model does not describe.
- Paste.UploadsInsertEvery: it assumes the uploaded URLs contain no `!`, so a link cannot recreate the placeholder.
- MediaFlowz.Plugin.PasteIntoNoteFolder: the cursor is assumed to stay in front of the inserted text, so each new link goes in front of the earlier ones.
- MediaFlowz.Plugin.OnRename: a failing `vault.rename` is modelled only as an existing destination, which leaves everything unchanged. Renaming onto the same path and notes stored inside the moved folder are not modelled: note paths stay as they are.
- MediaFlowz.Plugin.constructor: the source leaves `settings` unset until `loadSettings` runs; the model starts from the defaults, and the constructor's `MediaServiceFactory.initialize` call and the service singletons are not modelled.
- SettingsTab.SettingsTab.UpdateSettings: a failing `saveData` is not modelled. The source catches the error and leaves `plugin.settings` unassigned, while the `update*Settings` callers have already stored a default sub-record in place (src/core/SettingsTab.ts:944-953); the model's save always succeeds and always sets the settings.
- Positions and lengths count Unicode scalar values (a Dafny `char`), while JavaScript `substring`, `lastIndexOf`, `length` and CodeMirror's `ch` count UTF-16 code units. The two differ on text holding characters outside the Basic Multilingual Plane, and the model does not capture that difference.
- MediaFlowz.Plugin.OnLoad: the image-resizer switch on `layout-change`, the markdown post-processor and the editor extension are not modelled.
- MediaFlowz.Plugin.OnPaste: the `MEDIA_UPLOADED` handler and the editor-extension paste handler are not modelled.
- MediaFlowz.Plugin.LoadSettings: a saved `service` key whose value is `undefined` cannot be written in the model. So the `!service` repair never has anything to fix. Both repairs are in the method's body, and its ensures shows that they leave the merged record as it is.
- BangRewrite.ScanWhole: the general scan (`BangRewrite.Sweep`) also handles matches the piece model cannot produce. The defensive branch for such matches is not described by any lemma.
- FileNames.UpdateImageLinks: the rewrite is proved for a note with no link and for a note with one link found by one pattern; a `[](url)` link, which both markdown patterns find, and notes with several links are covered by the definition only.
- FileNames.UpdateImagePrefixes: the whole-note rewrite is proved for a note with one prefixed link; with several, each match's replacement is proved (`FileNames.PrefixRewriteEach`) and the splice follows the scan's definition.
- MediaFlowz.Plugin.PasteUploads: the class runs the corrected half of the Findings row for src/main.ts:353-385, one link per uploaded file (`Paste.Uploads`). As written only the first upload's link reaches the note (`Paste.AsWrittenLinksOnlyFirst`).
- MediaFlowz.Plugin.OnPaste: it pastes through `MediaFlowz.Plugin.PasteUploads`, so it too writes every link, the corrected behaviour rather than the source's.
- MediaFlowz.UploadPasteLinksEvery: it is proved for the corrected paste; the source as written keeps only the first link.
- MediaFlowz.Plugin.OnUnload: the class runs the corrected half of the Findings row for src/main.ts:550-553 (`BangRewrite.RestoreBangs`), adding `!` only where it is missing. As written a link that already has one gets a second (`BangRewrite.RestoreAsWrittenExample`).
- MediaFlowz.UnloadRestoresOpenedNote: it is proved for the corrected restore; as written, a link the user added with `!` after the note was opened becomes `!!`.
- MediaFlowz.RestoredNotes: it is stated for the corrected restore.
- MediaFlowz.Plugin.OnRename: the class strips the trailing `.md` only, the corrected half of the Findings row for src/main.ts:438 (`NoteFolders.RenameFindsPasteFolder`). As written `.replace('.md', '')` can miss the note's folder (`NoteFolders.AsWrittenMissesFolder`).
- Cloudinary.SortByKey: keys are compared by UTF-16 code units, where the source uses `localeCompare`. The two orders agree on keys made of lower-case ASCII letters and `_`, which covers every key the upload and delete requests carry (`upload_preset`, `transformation`, `folder`, `tags`, `public_id`, `timestamp`, `api_key`); other keys are not covered.
- Cloudinary.LessTotal: it is stated for the code-unit order, which matches `localeCompare` only on the signed keys named above.
- Cloudinary.LessTransitive: it is stated for the code-unit order, which matches `localeCompare` only on the signed keys named above.
- Cloudinary.CanonicalSortsKeys: the order is the code-unit order, which matches `localeCompare` only on the signed keys named above.
- Cloudinary.CanonicalSortsKeys: stated for two fields; the order-independence for any fields is `Cloudinary.CanonicalOrderFree`.
- Cloudinary.CanonicalLastValueWins: stated for two fields with one key; the general statement is `Cloudinary.ParamsLookup` with `Cloudinary.CanonicalListsLastValues`.
- Cloudinary.CanonicalListsLastValues: the key order is the code-unit order, which matches `localeCompare` only on the signed keys named above; the same holds for `Cloudinary.CanonicalOrderFree` and `Cloudinary.SortedUnique`.
- Cloudinary.Params: its own contract states only where entries come from and that keys are distinct; that every string field's key is present and holds the last value given is proved beside it, in `Cloudinary.ParamsComplete` and `Cloudinary.ParamsLookup`.
- MediaInfo.MediaInfoService.SaveCache: the cache is stored apart from the settings. In the source `saveData({ mediaCache })` replaces the whole data file, dropping the saved settings, and a later settings save replaces it again, dropping the cache.
- MediaInfo.UploadSurvivesReload: it holds only when no settings save comes between saving the cache and reloading it, because the two share one data file in the source.
- ImageResizer.Attr: slider attributes are whole numbers. `parseFloat` also reads fractions, and a fraction such as `0.5` is not modelled.
- TwicPics.TwicPicsService.HandleSettingsUpdate: the class reads the TwicPics record from the event's settings, the corrected half of the Findings row for src/services/TwicPicsService.ts:33-36; as written the handler always stores `undefined`.
- TwicPics.ClientFor: the client gets the base URL `https://{domain}/v1`, the corrected half of the Findings row for src/services/TwicPicsService.ts:59-60. How the HTTP library treats the unknown `baseUrl` key is outside this model.
- `BunnyService.getUrl` and `delete` call helpers that are not defined, so they are not modelled.

## Findings

| source | as written | input that shows it | evidently intended | confidence | as-written member | corrected member |
|---|---|---|---|---|---|---|
| src/utils/fileUtils.ts:9-11 | dashes are stripped before cutting to 50 characters, so the cut can leave a trailing `-` | 49 letters followed by ` b` gives the 49 letters and `-` | no trailing `-` after the cut | medium, not executed | FileUtils.SanitizeKeepsTrailingDash | FileUtils.SanitizeFileNameTrimmed |
| src/main.ts:550-553 | the unload pattern has no optional `!`, so a link that already has one gets a second | `![[a.png]]` becomes `!![[a.png]]` | add `!` only where it is missing | high, not executed | BangRewrite.RestoreAsWrittenExample | BangRewrite.RestoreKeepsBangedLinks |
| src/main.ts:353-385 | one placeholder is inserted per paste, but each upload replaces it, so only the first link is written | two media files with URLs `u1` and `u2` leave only `[](u1)` | one link per uploaded file | high, not executed | Paste.AsWrittenLinksOnlyFirst | Paste.UploadsInsertEvery |
| src/main.ts:438 | `.replace('.md', '')` drops the first `.md` anywhere in the name, not the extension | renaming `n/a.mdx.md` looks for folder `n/ax.md` instead of `n/a.mdx` | strip the trailing `.md` only | medium, not executed | NoteFolders.AsWrittenMissesFolder | NoteFolders.RenameFindsPasteFolder |
| src/services/TwicPicsService.ts:33-36 | the handler takes the event payload `{ settings }` and reads `twicpics` from it rather than from `settings`, so the TwicPics settings are always `undefined` | a `SETTINGS_UPDATED` event whose settings hold a configured TwicPics record, then an upload: it fails with "TwicPics n'est pas configuré" | read `data.settings.twicpics`, as the Cloudinary service reads its own record | high, not executed | TwicPics.AsWrittenNeverConfigured | TwicPics.SettingsEventReachesUpload |
| src/services/TwicPicsService.ts:59-60 | the client options name the base URL `baseUrl`, while the HTTP library reads `baseURL`, so requests go to relative paths | an upload with domain `d.twic.pics`: posted to `/upload` | `baseURL: https://{domain}/v1`, as the Cloudinary service writes it | medium, not executed | TwicPics.AsWrittenClientPaths | TwicPics.ClientFor |
