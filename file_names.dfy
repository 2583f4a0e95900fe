// FileNameService: naming of uploaded files after their note, renaming of
// prefixed image links when a note's `img-prefix` changes, and the link
// patterns used to find, remove and retarget every link to one image.

module FileNames {
  import opened Common
  import opened Text
  import opened Patterns
  import opened Scan
  import PatternForms
  import FileUtils
  import Media

  // ----- toKebabCase -----

  /** `.replace(/([a-z])([A-Z])/g, '$1-$2')`. */
  function SplitCamel(s: string): string
  {
    if |s| == 0 then ""
    else if |s| >= 2 && IsLower(s[0]) && IsUpper(s[1]) then [s[0], '-'] + SplitCamel(s[1..])
    else [s[0]] + SplitCamel(s[1..])
  }

  predicate IsBlankOrUnderscore(c: char) { IsSpace(c) || c == '_' }

  function SkipWhile(s: string, ampersand: bool): (r: string)
    ensures |r| <= |s|
  {
    if |s| > 0 && (if ampersand then s[0] == '&' else IsBlankOrUnderscore(s[0])) then SkipWhile(s[1..], ampersand)
    else s
  }

  /** `.replace(/[\s_]+/g, '-')`. */
  function DashBlanks(s: string): string
    decreases |s|
  {
    if |s| == 0 then ""
    else if IsBlankOrUnderscore(s[0]) then "-" + DashBlanks(SkipWhile(s[1..], false))
    else [s[0]] + DashBlanks(s[1..])
  }

  /** `.replace(/[&]+/g, 'and')`. */
  function SpellAmpersands(s: string): string
    decreases |s|
  {
    if |s| == 0 then ""
    else if s[0] == '&' then "and" + SpellAmpersands(SkipWhile(s[1..], true))
    else [s[0]] + SpellAmpersands(s[1..])
  }

  predicate IsKebabSource(c: char) { IsLetter(c) || IsDigit(c) || c == '-' }

  /** `.replace(/[^a-zA-Z0-9-]/g, '')`. */
  function KeepKebabSource(s: string): (r: string)
    ensures forall i :: 0 <= i < |r| ==> IsKebabSource(r[i])
  {
    if |s| == 0 then ""
    else if IsKebabSource(s[0]) then [s[0]] + KeepKebabSource(s[1..])
    else KeepKebabSource(s[1..])
  }

  /** The characters a kebab-case name is made of: `[a-z0-9-]`. */
  predicate IsKebabChar(c: char) { IsLower(c) || IsDigit(c) || c == '-' }

  predicate IsKebab(s: string) { forall i :: 0 <= i < |s| ==> IsKebabChar(s[i]) }

  /** `toKebabCase`. */
  function ToKebabCase(s: string): (r: string)
    ensures IsKebab(r)
  {
    var k := KeepKebabSource(SpellAmpersands(DashBlanks(SplitCamel(s))));
    assert forall i :: 0 <= i < |k| ==> IsKebabChar(LowerChar(k[i]));
    ToLower(k)
  }

  /** No lower-case letter is directly followed by an upper-case one. */
  ghost predicate NoCamelHump(s: string)
  {
    forall i, j :: 0 <= i < j < |s| && j == i + 1 ==> !(IsLower(s[i]) && IsUpper(s[j]))
  }

  /** Blanks are single spaces, never two in a row. */
  ghost predicate SingleSpaces(s: string)
  {
    (forall i :: 0 <= i < |s| && IsBlankOrUnderscore(s[i]) ==> s[i] == ' ')
    && forall i, j :: 0 <= i < j < |s| && j == i + 1 ==> !(s[i] == ' ' && s[j] == ' ')
  }

  /** Without a camel hump there is nothing to split. */
  lemma {:induction false} SplitCamelFlat(s: string)
    requires NoCamelHump(s)
    ensures SplitCamel(s) == s
  {
    if |s| > 0 {
      SplitCamelFlat(s[1..]);
      assert s == [s[0]] + s[1..];
    }
  }

  /** With single spaces, each blank simply becomes a dash. */
  lemma {:induction false} DashSingleBlanks(s: string)
    requires SingleSpaces(s)
    ensures DashBlanks(s) == ReplaceChar(s, ' ', '-')
  {
    if |s| > 0 {
      DashSingleBlanks(s[1..]);
      assert ReplaceChar(s, ' ', '-') == [ReplaceChar(s, ' ', '-')[0]] + ReplaceChar(s[1..], ' ', '-');
      if IsBlankOrUnderscore(s[0]) {
        assert |s| == 1 || !IsBlankOrUnderscore(s[1]);
        assert SkipWhile(s[1..], false) == s[1..];
      }
    }
  }

  /** Text without `&` passes through the ampersand stage unchanged. */
  lemma {:induction false} SpellPlainPrefix(a: string, b: string)
    requires '&' !in a
    ensures SpellAmpersands(a + b) == a + SpellAmpersands(b)
  {
    if |a| == 0 {
      assert a + b == b;
    } else {
      SpellPlainPrefix(a[1..], b);
      assert (a + b)[1..] == a[1..] + b;
      ConsSlice(a, SpellAmpersands(b));
    }
  }

  /** The filter keeps text that has only letters, digits and dashes. */
  lemma {:induction false} KeepAllSource(s: string)
    requires forall i :: 0 <= i < |s| ==> IsKebabSource(s[i])
    ensures KeepKebabSource(s) == s
  {
    if |s| > 0 {
      KeepAllSource(s[1..]);
      assert s == [s[0]] + s[1..];
    }
  }

  /** The filter works character by character. */
  lemma {:induction false} KeepAppend(a: string, b: string)
    ensures KeepKebabSource(a + b) == KeepKebabSource(a) + KeepKebabSource(b)
  {
    if |a| == 0 {
      assert a + b == b;
    } else {
      var h: string := if IsKebabSource(a[0]) then [a[0]] else "";
      KeepAppend(a[1..], b);
      KeepHead(a, b, h);
      assert h + (KeepKebabSource(a[1..]) + KeepKebabSource(b))
          == (h + KeepKebabSource(a[1..])) + KeepKebabSource(b);
    }
  }

  /** The filter's verdict on the first character, with and without a continuation. */
  lemma KeepHead(a: string, b: string, h: string)
    requires |a| > 0 && h == if IsKebabSource(a[0]) then [a[0]] else ""
    ensures KeepKebabSource(a) == h + KeepKebabSource(a[1..])
    ensures KeepKebabSource(a + b) == h + KeepKebabSource(a[1..] + b)
  {
    assert (a + b)[0] == a[0];
    assert (a + b)[1..] == a[1..] + b;
  }

  /** A kebab-case name is its own kebab case: the conversion is idempotent. */
  lemma KebabIdempotent(s: string)
    ensures ToKebabCase(ToKebabCase(s)) == ToKebabCase(s)
  {
    KebabFixed(ToKebabCase(s));
  }

  lemma KebabFixed(k: string)
    requires IsKebab(k)
    ensures ToKebabCase(k) == k
  {
    KebabFlat(k);
    KebabPlain(k);
    KebabLower(k);
  }

  /** Kebab text has no camel hump and no blank: the first two stages keep it. */
  lemma KebabFlat(k: string)
    requires IsKebab(k)
    ensures DashBlanks(SplitCamel(k)) == k
  {
    KebabShape(k);
    SplitCamelFlat(k);
    DashSingleBlanks(k);
    KebabHasNoSpace(k);
  }

  lemma KebabShape(k: string)
    requires IsKebab(k)
    ensures NoCamelHump(k) && SingleSpaces(k)
  {
  }

  lemma KebabHasNoSpace(k: string)
    requires IsKebab(k)
    ensures ReplaceChar(k, ' ', '-') == k
  {
    assert forall i :: 0 <= i < |k| ==> k[i] != ' ';
  }

  /** Kebab text has no ampersand and only kept characters: the next two stages keep it. */
  lemma KebabPlain(k: string)
    requires IsKebab(k)
    ensures KeepKebabSource(SpellAmpersands(k)) == k
  {
    SpellPlainPrefix(k, "");
    assert k + "" == k;
    assert forall i :: 0 <= i < |k| ==> IsKebabSource(k[i]);
    KeepAllSource(k);
  }

  lemma KebabLower(k: string)
    requires IsKebab(k)
    ensures ToLower(k) == k
  {
    assert forall i :: 0 <= i < |k| ==> LowerChar(k[i]) == k[i];
  }

  /** A title of words separated by single spaces becomes its lower-cased words
      joined by dashes. */
  lemma KebabOfTitle(s: string)
    requires forall i :: 0 <= i < |s| ==> IsLetter(s[i]) || IsDigit(s[i]) || s[i] == ' '
    requires NoCamelHump(s) && SingleSpaces(s)
    ensures ToKebabCase(s) == ToLower(ReplaceChar(s, ' ', '-'))
  {
    SplitCamelFlat(s);
    DashSingleBlanks(s);
    var d := ReplaceChar(s, ' ', '-');
    assert forall i :: 0 <= i < |d| ==> IsKebabSource(d[i]);
    SpellPlainPrefix(d, "");
    assert d + "" == d;
    KeepAllSource(d);
  }

  /** A run of ampersands after plain text becomes one `and`, whatever follows it. */
  lemma SpellAmpersandRun(a: string, b: string)
    requires '&' !in a && (b == [] || b[0] != '&')
    ensures SpellAmpersands(a + "&" + b) == a + "and" + SpellAmpersands(b)
  {
    var t, x := "&" + b, SpellAmpersands(b);
    SpellPlainPrefix(a, t);
    SpellRunHead(b, t);
    assert a + "&" + b == a + t;
    assert a + ("and" + x) == a + "and" + x;
  }

  lemma SpellRunHead(b: string, t: string)
    requires t == "&" + b && (b == [] || b[0] != '&')
    ensures SpellAmpersands(t) == "and" + SpellAmpersands(b)
  {
    assert t[1..] == b;
    assert SkipWhile(b, true) == b;
  }

  // ----- getFilePrefix / generateFileName -----

  /** `getFilePrefix`: the note's `img-prefix` front-matter value when it is set and
      non-empty, otherwise the note title in kebab case. */
  function GetFilePrefix(imgPrefix: Option<string>, basename: string): (r: string)
    ensures imgPrefix.Some? && imgPrefix.value != "" ==> r == imgPrefix.value
    ensures (imgPrefix.None? || imgPrefix.value == "") ==> r == ToKebabCase(basename) && IsKebab(r)
  {
    if imgPrefix.Some? && imgPrefix.value != "" then imgPrefix.value else ToKebabCase(basename)
  }

  /** `generateFileName(file, prefix)` at time `timestamp`:
      `kebab(prefix || name-before-first-dot)_timestamp.extension`. */
  function GenerateFileName(name: string, prefix: string, timestamp: nat): string
  {
    var ext := AfterLast(name, '.');
    var base := ToKebabCase(if prefix != "" then prefix else Before(name, '.'));
    base + "_" + NatToString(timestamp) + "." + ext
  }

  /** The timestamp digits of a generated name: between the first `_` and the next `.`. */
  function ReadStamp(fileName: string): string
  {
    var k := FindChar(fileName, 0, '_');
    if k == |fileName| then "" else fileName[k + 1..FindChar(fileName, k + 1, '.')]
  }

  /** The generated name reads back into its parts: the kebab base before the first `_`,
      the digits of the timestamp up to the next dot, and the original extension after
      the last dot. */
  lemma GenerateFileNameParts(name: string, prefix: string, timestamp: nat)
    ensures var r := GenerateFileName(name, prefix, timestamp);
            var base := ToKebabCase(if prefix != "" then prefix else Before(name, '.'));
            Before(r, '_') == base && ReadStamp(r) == NatToString(timestamp)
            && AfterLast(r, '.') == AfterLast(name, '.')
            && FileUtils.GetFileExtension(r) == FileUtils.GetFileExtension(name)
  {
    AfterLastIsSuffix(name, '.');
    var base := ToKebabCase(if prefix != "" then prefix else Before(name, '.'));
    assert forall i :: 0 <= i < |base| ==> IsKebabChar(base[i]);
    NameParts(base, NatToString(timestamp), AfterLast(name, '.'));
  }

  lemma NameParts(base: string, digits: string, ext: string)
    requires '_' !in base && AllDigits(digits) && '.' !in ext
    ensures var r := base + "_" + digits + "." + ext;
            Before(r, '_') == base && ReadStamp(r) == digits && AfterLast(r, '.') == ext
  {
    var r := base + "_" + digits + "." + ext;
    var k := |base|;
    assert r[k] == '_';
    assert forall i :: 0 <= i < k ==> r[i] == base[i];
    assert FindChar(r, 0, '_') == k;
    assert r[..k] == base;
    assert r[k + 1 + |digits|] == '.';
    assert forall i :: k + 1 <= i < k + 1 + |digits| ==> r[i] == digits[i - k - 1];
    assert FindChar(r, k + 1, '.') == k + 1 + |digits|;
    assert r[k + 1..k + 1 + |digits|] == digits;
    AfterLastAppend(base + "_" + digits, '.', ext);
  }

  /** Two uploads at different times get different names: the timestamp reads back. */
  lemma GenerateFileNameUnique(name: string, prefix: string, t1: nat, t2: nat)
    requires t1 != t2
    ensures GenerateFileName(name, prefix, t1) != GenerateFileName(name, prefix, t2)
  {
    GenerateFileNameParts(name, prefix, t1);
    GenerateFileNameParts(name, prefix, t2);
    ParseNatToString(t1);
    ParseNatToString(t2);
  }

  // ----- escapeRegExp -----

  predicate IsRegExpSpecial(c: char)
  {
    c in ".*+?^${}()|[]\\"
  }

  /** `escapeRegExp`: a backslash before every pattern metacharacter. */
  function EscapeRegExp(s: string): string
  {
    if |s| == 0 then ""
    else (if IsRegExpSpecial(s[0]) then ['\\', s[0]] else [s[0]]) + EscapeRegExp(s[1..])
  }

  /** How the pattern engine reads an escaped literal back: `\c` stands for `c`. */
  function ReadLiteral(p: string): string
    decreases |p|
  {
    if |p| == 0 then ""
    else if p[0] == '\\' && |p| >= 2 then [p[1]] + ReadLiteral(p[2..])
    else [p[0]] + ReadLiteral(p[1..])
  }

  /** Escaping is undone by reading the pattern: the patterns built from an escaped
      string match that string literally, which is how the model treats them. */
  lemma {:induction false} EscapeRoundTrip(s: string)
    ensures ReadLiteral(EscapeRegExp(s)) == s
    ensures forall i :: 0 <= i < |EscapeRegExp(s)| && !IsRegExpSpecial(EscapeRegExp(s)[i]) ==> EscapeRegExp(s)[i] in s
  {
    if |s| > 0 {
      EscapeRoundTrip(s[1..]);
      var e := EscapeRegExp(s);
      var rest := EscapeRegExp(s[1..]);
      if IsRegExpSpecial(s[0]) {
        assert e == ['\\', s[0]] + rest;
        assert e[2..] == rest;
      } else {
        assert e == [s[0]] + rest;
        assert e[1..] == rest;
      }
      assert s == [s[0]] + s[1..];
    }
  }

  // ----- cloud URLs and link patterns -----

  /** `isCloudImage`. */
  predicate IsCloudImage(url: string)
  {
    StartsWith(url, "http") && Media.KnownHost(url)
  }

  /** `cleanImageUrl`: drop `?query` (remote URLs only), then the `|size` suffix. */
  function CleanImageUrl(url: string): (r: string)
    ensures '|' !in r
    ensures StartsWith(url, "http") ==> '?' !in r
    ensures StartsWith(url, r)
  {
    if StartsWith(url, "http") then
      var b := Before(url, '?');
      var r := Before(b, '|');
      assert forall c :: c in r ==> c in b;
      r
    else Before(url, '|')
  }

  lemma CleanImageUrlIdempotent(url: string)
    ensures CleanImageUrl(CleanImageUrl(url)) == CleanImageUrl(url)
  {
    var r := CleanImageUrl(url);
    BeforeAbsent(r, '|');
    if StartsWith(url, "http") {
      BeforeAbsent(r, '?');
    }
  }

  /** The three patterns of `getImagePatterns`. */
  datatype ImagePatterns = ImagePatterns(wiki: Pattern, markdown: Pattern, markdownNoAlt: Pattern)

  function PatternsFor(target: string, remote: bool): ImagePatterns
  {
    ImagePatterns(ImageLink(WikiShape, target, remote), ImageLink(MarkdownShape, target, remote),
                  ImageLink(MarkdownNoAltShape, target, remote))
  }

  const VaultMarker := "Dev - Plugin Obsidian/"

  /** The file name an `app://` URL points at: the decoded text after the last
      vault marker, before any `?`. */
  function AppUrlFileName(cleanUrl: string, decode: string -> string): string
  {
    var d := decode(cleanUrl);
    var k := LastIndexOf(d, VaultMarker, |d|);
    Before(if k < 0 then d else d[k + |VaultMarker|..], '?')
  }

  /** `getImagePatterns(url)`; `decode` stands for `decodeURIComponent`. */
  function GetImagePatterns(url: string, decode: string -> string): (r: ImagePatterns)
    ensures r.wiki.ImageLink? && r.wiki.shape == WikiShape
    ensures r.markdown.ImageLink? && r.markdown.shape == MarkdownShape
    ensures r.markdownNoAlt.ImageLink? && r.markdownNoAlt.shape == MarkdownNoAltShape
    ensures r.wiki.target == r.markdown.target == r.markdownNoAlt.target
    ensures r.wiki.remote == r.markdown.remote == r.markdownNoAlt.remote
    ensures r.wiki.remote <==> !StartsWith(CleanImageUrl(url), "app://") && StartsWith(CleanImageUrl(url), "http")
    ensures !StartsWith(CleanImageUrl(url), "app://") ==> r.wiki.target == CleanImageUrl(url)
  {
    var clean := CleanImageUrl(url);
    if StartsWith(clean, "app://") then PatternsFor(AppUrlFileName(clean, decode), false)
    else PatternsFor(clean, StartsWith(clean, "http"))
  }

  // ----- removeImageLinks / updateImageLinks -----

  /** The empty replacement. */
  function Nothing(m: Match): string { "" }

  /** One step of `removeImageLinks`: delete every match of `p`. */
  function RemoveAll(p: Pattern, s: string): string
  {
    ReplaceAll(p, s, Nothing)
  }

  /** The content after deleting the matches of each pattern in turn. */
  function RemoveEach(ps: seq<Pattern>, s: string): string
  {
    if |ps| == 0 then s else RemoveEach(ps[1..], RemoveAll(ps[0], s))
  }

  function PatternList(ip: ImagePatterns): seq<Pattern>
  {
    [ip.wiki, ip.markdown, ip.markdownNoAlt]
  }

  /** `removeImageLinks(content, url)`: applies the wiki, markdown and bare-markdown
      patterns one after the other, each deleting all its matches. */
  method RemoveImageLinks(content: string, url: string, decode: string -> string) returns (newContent: string)
    ensures newContent == RemoveEach(PatternList(GetImagePatterns(url, decode)), content)
    ensures |newContent| <= |content|
  {
    var patterns := PatternList(GetImagePatterns(url, decode));
    newContent := content;
    var i := 0;
    while i < |patterns|
      invariant 0 <= i <= |patterns|
      invariant RemoveEach(patterns, content) == RemoveEach(patterns[i..], newContent)
      invariant |newContent| <= |content|
    {
      assert patterns[i..][1..] == patterns[i + 1..];
      RemoveAllShrinks(patterns[i], newContent);
      newContent := RemoveAll(patterns[i], newContent);
      i := i + 1;
    }
  }

  /** The number of characters a chain of matches covers. */
  function MatchedLength(ms: seq<Match>): int
  {
    if |ms| == 0 then 0 else ms[0].end - ms[0].start + MatchedLength(ms[1..])
  }

  /** Deleting a chain of matches removes exactly the characters they cover. */
  lemma {:induction false} DeletedLength(s: string, ms: seq<Match>, from: nat)
    requires from <= |s| && Chain(ms, from, |s|)
    ensures |ReplaceMatches(s, ms, from, Nothing)| == |s| - from - MatchedLength(ms)
    ensures MatchedLength(ms) >= 0
    decreases |ms|
  {
    if |ms| > 0 {
      DeletedLength(s, ms[1..], ms[0].end);
    }
  }

  /** Removal never lengthens the note, and shortens it whenever the pattern matched. */
  lemma RemoveAllShrinks(p: Pattern, s: string)
    ensures |RemoveAll(p, s)| <= |s|
    ensures AllMatches(p, s) != [] ==> |RemoveAll(p, s)| < |s|
  {
    var ms := AllMatches(p, s);
    DeletedLength(s, ms, 0);
    if ms != [] {
      DeletedLength(s, ms[1..], ms[0].end);
    }
  }

  /** The replacement for one link in `updateImageLinks`: the same shape and `!`,
      with the markdown alt text kept, pointing at `newUrl`. */
  function Retarget(shape: LinkShape, m: Match, newUrl: string): string
  {
    var bang := BangOf(m);
    match shape
    case WikiShape => bang + "[[" + newUrl + "]]"
    case MarkdownShape => bang + "[" + m.alt + "](" + newUrl + ")"
    case MarkdownNoAltShape => bang + "[](" + newUrl + ")"
  }

  /** The `!` a link match starts with, if any. */
  function BangOf(m: Match): string
  {
    if m.bang then "!" else ""
  }

  /** A link `ImageLink(shape, target, remote)` matches is an optional `!`, the opening
      (with the alt text), the target, a tail and the closing; its retargeted form
      keeps the `!`, the opening and the closing, and has `newUrl` in place of the
      target and the tail, so a `|size` or `?query` tail is dropped. */
  lemma RetargetKeeps(s: string, i: nat, shape: LinkShape, target: string, remote: bool, newUrl: string)
    requires i < |s| && MatchAt(ImageLink(shape, target, remote), s, i).Some?
    ensures var m := MatchAt(ImageLink(shape, target, remote), s, i).value;
            (exists tail :: PatternForms.ImageLinkParts(shape, m.alt, tail, remote)
                            && m.text == BangOf(m) + PatternForms.ImageLinkText(shape, m.alt, target, tail))
            && Retarget(shape, m, newUrl) == BangOf(m) + PatternForms.ImageLinkText(shape, m.alt, newUrl, "")
  {
    var j := if s[i] == '!' then i + 1 else i;
    PatternForms.ImageLinkSound(s, j, shape, target, remote);
    var core := ImageLinkCore(s, j, shape, target, remote).value;
    var m := MatchAt(ImageLink(shape, target, remote), s, i).value;
    var tail :| PatternForms.ImageLinkParts(shape, core.alt, tail, remote)
                && core.text == PatternForms.ImageLinkText(shape, core.alt, target, tail);
    BangText(s, i, j, core.end, m.bang);
    RetargetText(shape, m, newUrl);
  }

  /** The text from `i` is the optional `!` followed by the text from `j`. */
  lemma BangText(s: string, i: nat, j: nat, e: nat, bang: bool)
    requires i < |s| && j == (if s[i] == '!' then i + 1 else i) && j <= e <= |s| && bang == (s[i] == '!')
    ensures s[i..e] == (if bang then "!" else "") + s[j..e]
  {
    assert s[i..e] == s[i..j] + s[j..e];
  }

  /** `Retarget` writes the link's own opening and closing around `newUrl`. */
  lemma RetargetText(shape: LinkShape, m: Match, newUrl: string)
    requires shape.MarkdownShape? || m.alt == ""
    ensures Retarget(shape, m, newUrl) == BangOf(m) + PatternForms.ImageLinkText(shape, m.alt, newUrl, "")
  {
    var b := BangOf(m);
    var o := PatternForms.Opening(shape, m.alt);
    var c := PatternForms.Closing(shape);
    assert Retarget(shape, m, newUrl) == b + o + newUrl + c;
    assert PatternForms.ImageLinkText(shape, m.alt, newUrl, "") == o + newUrl + c;
  }

  function RetargetStep(p: Pattern, original: string, current: string, newUrl: string): string
    requires p.ImageLink?
  {
    if AllMatches(p, original) != [] then ReplaceAll(p, current, Retargeter(p.shape, newUrl))
    else current
  }

  function Retargeter(shape: LinkShape, newUrl: string): Match -> string
  {
    (m: Match) => Retarget(shape, m, newUrl)
  }

  /** `updateImageLinks(content, oldUrl, newUrl)`: for each of the three patterns that
      matches the ORIGINAL content, every match in the current content is rewritten
      to point at `cleanImageUrl(newUrl)`. */
  function UpdateImageLinks(content: string, oldUrl: string, newUrl: string, decode: string -> string): string
  {
    var ps := GetImagePatterns(oldUrl, decode);
    var clean := CleanImageUrl(newUrl);
    var afterWiki := RetargetStep(ps.wiki, content, content, clean);
    var afterMarkdown := RetargetStep(ps.markdown, content, afterWiki, clean);
    RetargetStep(ps.markdownNoAlt, content, afterMarkdown, clean)
  }

  /** Content with no link to the old image is returned untouched. */
  lemma UpdateWithoutLinks(content: string, oldUrl: string, newUrl: string, decode: string -> string)
    requires var ps := GetImagePatterns(oldUrl, decode);
             AllMatches(ps.wiki, content) == [] && AllMatches(ps.markdown, content) == []
             && AllMatches(ps.markdownNoAlt, content) == []
    ensures UpdateImageLinks(content, oldUrl, newUrl, decode) == content
  {
  }

  /** A note whose one link to the old image is `m`, found by the `k`-th pattern and
      by no other, becomes the text before the link, the retargeted link and the text
      after it. */
  lemma UpdateSingleLink(content: string, oldUrl: string, newUrl: string, decode: string -> string, k: nat, m: Match)
    requires k < 3
    requires forall j :: 0 <= j < 3 ==>
               AllMatches(PatternList(GetImagePatterns(oldUrl, decode))[j], content) == (if j == k then [m] else [])
    ensures var p := PatternList(GetImagePatterns(oldUrl, decode))[k];
            p.ImageLink? && m.start < m.end <= |content| && m.text == content[m.start..m.end]
            && UpdateImageLinks(content, oldUrl, newUrl, decode)
               == content[..m.start] + Retarget(p.shape, m, CleanImageUrl(newUrl)) + content[m.end..]
  {
    var ps := GetImagePatterns(oldUrl, decode);
    var pl := PatternList(ps);
    var clean := CleanImageUrl(newUrl);
    var p := pl[k];
    assert AllMatches(pl[0], content) == (if k == 0 then [m] else []);
    assert AllMatches(pl[1], content) == (if k == 1 then [m] else []);
    assert AllMatches(pl[2], content) == (if k == 2 then [m] else []);
    ReplaceSingle(p, content, Retargeter(p.shape, clean), m);
  }

  /** The note-level statement: the one link to the old image, with whatever tail it
      had, is replaced by a link of the same shape, `!` and alt text to the new URL. */
  lemma UpdateSingleLinkText(content: string, oldUrl: string, newUrl: string, decode: string -> string, k: nat, m: Match)
    requires k < 3
    requires forall j :: 0 <= j < 3 ==>
               AllMatches(PatternList(GetImagePatterns(oldUrl, decode))[j], content) == (if j == k then [m] else [])
    ensures var p := PatternList(GetImagePatterns(oldUrl, decode))[k];
            p.ImageLink? && m.start < m.end <= |content|
            && (exists tail :: PatternForms.ImageLinkParts(p.shape, m.alt, tail, p.remote)
                              && content[m.start..m.end] == BangOf(m) + PatternForms.ImageLinkText(p.shape, m.alt, p.target, tail))
            && UpdateImageLinks(content, oldUrl, newUrl, decode)
               == content[..m.start] + BangOf(m) + PatternForms.ImageLinkText(p.shape, m.alt, CleanImageUrl(newUrl), "")
                  + content[m.end..]
  {
    var p := PatternList(GetImagePatterns(oldUrl, decode))[k];
    var clean := CleanImageUrl(newUrl);
    UpdateSingleLink(content, oldUrl, newUrl, decode, k, m);
    assert AllMatches(p, content) == [m];
    FoundLink(p, content, m, clean);
    Splice(content[..m.start], Retarget(p.shape, m, clean), content[m.end..], BangOf(m),
           PatternForms.ImageLinkText(p.shape, m.alt, clean, ""));
  }

  lemma Splice(a: string, r: string, b: string, x: string, y: string)
    requires r == x + y
    ensures a + r + b == a + x + y + b
  {
  }

  /** A link the scan finds for `ImageLink(shape, target, remote)`, and its retargeted form. */
  lemma FoundLink(p: Pattern, s: string, m: Match, newUrl: string)
    requires p.ImageLink? && |AllMatches(p, s)| > 0 && AllMatches(p, s)[0] == m
    ensures m.start < m.end <= |s|
    ensures exists tail :: PatternForms.ImageLinkParts(p.shape, m.alt, tail, p.remote)
                           && s[m.start..m.end] == BangOf(m) + PatternForms.ImageLinkText(p.shape, m.alt, p.target, tail)
    ensures Retarget(p.shape, m, newUrl) == BangOf(m) + PatternForms.ImageLinkText(p.shape, m.alt, newUrl, "")
  {
    FindAllAt(p, s, 0, 0);
    FoundSpan(p, s, 0);
    assert p == ImageLink(p.shape, p.target, p.remote);
    RetargetKeeps(s, m.start, p.shape, p.target, p.remote, newUrl);
  }

  /** Content with no link to the image is returned untouched by removal too. */
  lemma RemoveWithoutLinks(content: string, url: string, decode: string -> string)
    requires var ps := GetImagePatterns(url, decode);
             AllMatches(ps.wiki, content) == [] && AllMatches(ps.markdown, content) == []
             && AllMatches(ps.markdownNoAlt, content) == []
    ensures RemoveEach(PatternList(GetImagePatterns(url, decode)), content) == content
  {
    var ps := PatternList(GetImagePatterns(url, decode));
    NoMatchNoChange(ps[0], content, Nothing);
    NoMatchNoChange(ps[1], content, Nothing);
    NoMatchNoChange(ps[2], content, Nothing);
    assert RemoveEach(ps, content) == RemoveEach(ps[1..], content);
    assert RemoveEach(ps[1..], content) == RemoveEach(ps[2..], content) by {
      assert ps[1..][1..] == ps[2..];
    }
    assert RemoveEach(ps[2..], content) == RemoveEach([], content) by {
      assert ps[2..][1..] == [];
    }
  }

  // ----- updateImagePrefixes -----

  /** What `updateImagePrefixes` does with a note. */
  datatype PrefixOutcome =
    | NoImagesNotice                        // nothing matched: notice, file untouched
    | Unchanged                             // matches, but the text came out identical
    | Rewritten(content: string, count: nat) // file written, `count` links renamed

  /** `match.split('.').pop()?.replace(')', '')`. */
  function ExtensionOfMatch(text: string): string
  {
    var last := AfterLast(text, '.');
    var k := FindChar(last, 0, ')');
    if k < |last| then last[..k] + last[k + 1..] else last
  }

  /** The new link for one prefixed image, stamped `timestamp`. */
  function PrefixReplacement(m: Match, newPrefix: string, timestamp: nat): string
  {
    PrefixedLink(m.alt, m.target, newPrefix, NatToString(timestamp), ExtensionOfMatch(m.text))
  }

  /** `![alt](dir PREFIX_digits.ext)`: the form of a prefixed image link. */
  function PrefixedLink(alt: string, dir: string, prefix: string, digits: string, ext: string): string
  {
    "![" + alt + "](" + dir + prefix + "_" + digits + "." + ext + ")"
  }

  /** A prefixed image match is `![alt](dir PREFIX_digits.ext)` with its own alt, directory
      and extension. */
  lemma PrefixedForm(s: string, i: nat, prefix: string)
    requires i < |s| && MatchAt(PrefixedImage(prefix), s, i).Some?
    ensures var m := MatchAt(PrefixedImage(prefix), s, i).value;
            exists digits :: |digits| > 0 && AllDigits(digits) && m.text == PrefixedLink(m.alt, m.target, prefix, digits, m.ext)
  {
    PrefixedAtForm(s, i, prefix);
  }

  lemma PrefixedAtForm(s: string, i: nat, prefix: string)
    requires i < |s| && PrefixedImageAt(s, i, prefix).Some?
    ensures var m := PrefixedImageAt(s, i, prefix).value;
            exists digits :: |digits| > 0 && AllDigits(digits) && m.text == PrefixedLink(m.alt, m.target, prefix, digits, m.ext)
  {
    var m := PrefixedImageAt(s, i, prefix).value;
    var q, pv := PrefixedPositions(s, i, prefix);
    var digits := PrefixTailDigits(s, pv, prefix);
    Assemble(s, i, q, pv, m.end, prefix, digits, m.ext);
  }

  /** Where the label, the directory and the tail of a prefixed match lie. */
  lemma PrefixedPositions(s: string, i: nat, prefix: string) returns (q: nat, pv: nat)
    requires i < |s| && PrefixedImageAt(s, i, prefix).Some?
    ensures var m := PrefixedImageAt(s, i, prefix).value;
            i + 2 <= q && q + 2 <= pv <= m.end <= |s| && s[i..i + 2] == "![" && s[q..q + 2] == "]("
            && m.alt == s[i + 2..q] && m.target == s[q + 2..pv] && m.text == s[i..m.end]
            && PrefixTail(s, pv, prefix) == Some(Tail(m.end, m.ext))
  {
    q := FindChar(s, i + 2, ']');
    assert OccursAt(s, "![", i) && PrefixedImageAt(s, i, prefix) == PrefixedAfterLabel(s, i, q, prefix);
    var lp := AfterLabelPath(s, i, q, prefix);
    pv := lp.value;
    PathParts(s, i, q, lp, prefix);
  }

  lemma PathParts(s: string, i: nat, q: nat, lp: Option<nat>, prefix: string)
    requires i + 2 <= q && q + 2 <= |s| && lp.Some? && q + 2 <= lp.value <= |s|
    requires PrefixedPath(s, i, q, lp, prefix).Some?
    ensures var m := PrefixedPath(s, i, q, lp, prefix).value;
            lp.value <= m.end <= |s| && m.alt == s[i + 2..q] && m.target == s[q + 2..lp.value]
            && m.text == s[i..m.end] && PrefixTail(s, lp.value, prefix) == Some(Tail(m.end, m.ext))
  {
  }

  lemma AfterLabelPath(s: string, i: nat, q: nat, prefix: string) returns (lp: Option<nat>)
    requires i + 2 <= q <= |s| && PrefixedAfterLabel(s, i, q, prefix).Some?
    ensures q + 2 <= |s| && s[q..q + 2] == "](" && lp.Some? && q + 2 <= lp.value <= |s|
    ensures PrefixedAfterLabel(s, i, q, prefix) == PrefixedPath(s, i, q, lp, prefix)
  {
    lp := LongestPath(s, q + 2, FindChar(s, q + 2, ')'), prefix);
  }

  /** The digits of the tail the prefix pattern accepts at `e`: the tail is `PREFIX_`,
      those digits, `.`, the letters and `)`. */
  lemma PrefixTailDigits(s: string, e: nat, prefix: string) returns (digits: string)
    requires e <= |s| && PrefixTail(s, e, prefix).Some?
    ensures var t := PrefixTail(s, e, prefix).value;
            |digits| > 0 && AllDigits(digits) && e <= t.end <= |s|
            && s[e..t.end] == prefix + "_" + digits + "." + t.ext + ")"
  {
    var d0 := e + |prefix| + 1;
    var d, l := TailPositions(s, e, prefix);
    digits := s[d0..d];
    assert s[d..d + 1] == "." && s[l..l + 1] == ")";
    FiveSlices(s, e, d0, d, d + 1, l, l + 1);
  }

  /** Where the digits and the letters of an accepted prefix tail end. */
  lemma TailPositions(s: string, e: nat, prefix: string) returns (d: nat, l: nat)
    requires e <= |s| && PrefixTail(s, e, prefix).Some?
    ensures e + |prefix| + 1 < d < l < |s| && s[e..e + |prefix| + 1] == prefix + "_"
    ensures AllDigits(s[e + |prefix| + 1..d]) && s[d] == '.' && s[l] == ')'
    ensures PrefixTail(s, e, prefix) == Some(Tail(l + 1, s[d + 1..l]))
  {
    d := DigitsEnd(s, e + |prefix| + 1);
    l := LettersEnd(s, d + 1);
  }

  /** The pieces of a prefixed link put back together. */
  lemma Assemble(s: string, i: nat, q: nat, pv: nat, e: nat, prefix: string, digits: string, ext: string)
    requires i + 2 <= q && q + 2 <= pv <= e <= |s| && s[i..i + 2] == "![" && s[q..q + 2] == "]("
    requires s[pv..e] == prefix + "_" + digits + "." + ext + ")"
    ensures s[i..e] == PrefixedLink(s[i + 2..q], s[q + 2..pv], prefix, digits, ext)
  {
    FiveSlices(s, i, i + 2, q, q + 2, pv, e);
    LinkOfParts(s[i..e], s[i..i + 2], s[i + 2..q], s[q..q + 2], s[q + 2..pv], s[pv..e], prefix, digits, ext);
  }

  lemma LinkOfParts(text: string, open: string, alt: string, mid: string, dir: string, tail: string,
                    prefix: string, digits: string, ext: string)
    requires text == open + alt + mid + dir + tail && open == "![" && mid == "]("
    requires tail == prefix + "_" + digits + "." + ext + ")"
    ensures text == PrefixedLink(alt, dir, prefix, digits, ext)
  {
  }

  /** A slice cut at four inner positions. */
  lemma FiveSlices(s: string, a: nat, b: nat, c: nat, d: nat, e: nat, f: nat)
    requires a <= b <= c <= d <= e <= f <= |s|
    ensures s[a..f] == s[a..b] + s[b..c] + s[c..d] + s[d..e] + s[e..f]
  {
    assert s[a..f] == s[a..b] + s[b..f];
    assert s[b..f] == s[b..c] + s[c..f];
    assert s[c..f] == s[c..d] + s[d..f];
    assert s[d..f] == s[d..e] + s[e..f];
  }

  /** `updateImagePrefixes(file, oldPrefix, newPrefix)`; `stamp` gives the clock reading
      taken while each match is replaced. */
  function UpdateImagePrefixes(content: string, oldPrefix: string, newPrefix: string, stamp: Match -> nat): (r: PrefixOutcome)
    ensures r.NoImagesNotice? <==> AllMatches(PrefixedImage(oldPrefix), content) == []
    ensures r.Rewritten? ==> r.content != content && r.count == |AllMatches(PrefixedImage(oldPrefix), content)|
  {
    var p := PrefixedImage(oldPrefix);
    var ms := AllMatches(p, content);
    if |ms| == 0 then NoImagesNotice
    else
      var newContent := ReplaceAll(p, content, Restamper(newPrefix, stamp));
      if newContent == content then Unchanged else Rewritten(newContent, |ms|)
  }

  function Restamper(newPrefix: string, stamp: Match -> nat): Match -> string
  {
    (m: Match) => PrefixReplacement(m, newPrefix, stamp(m))
  }

  /** Each prefixed link found, `![alt](dir OLD_digits.ext)`, is replaced by
      `![alt](dir NEW_stamp.ext)`: alt text, directory and extension are kept. */
  lemma PrefixRewriteEach(content: string, oldPrefix: string, newPrefix: string, stamp: Match -> nat, k: nat)
    requires k < |AllMatches(PrefixedImage(oldPrefix), content)|
    ensures var m := AllMatches(PrefixedImage(oldPrefix), content)[k];
            m.start < m.end <= |content| && content[m.start..m.end] == m.text
            && (exists digits :: |digits| > 0 && AllDigits(digits)
                                 && m.text == PrefixedLink(m.alt, m.target, oldPrefix, digits, m.ext))
            && Restamper(newPrefix, stamp)(m) == PrefixedLink(m.alt, m.target, newPrefix, NatToString(stamp(m)), m.ext)
  {
    var p := PrefixedImage(oldPrefix);
    var m := AllMatches(p, content)[k];
    FindAllAt(p, content, 0, k);
    FoundSpan(p, content, k);
    PrefixedForm(content, m.start, oldPrefix);
    ExtensionOfPrefixedMatch(content, m.start, oldPrefix);
  }

  /** A note with one prefixed link: only that link is rewritten, and the note counts
      as changed exactly when the new link differs from the old. */
  lemma UpdateSinglePrefixed(content: string, oldPrefix: string, newPrefix: string, stamp: Match -> nat, m: Match)
    requires AllMatches(PrefixedImage(oldPrefix), content) == [m]
    ensures m.start < m.end <= |content|
    ensures var link := PrefixedLink(m.alt, m.target, newPrefix, NatToString(stamp(m)), m.ext);
            var after := content[..m.start] + link + content[m.end..];
            UpdateImagePrefixes(content, oldPrefix, newPrefix, stamp)
            == if after == content then Unchanged else Rewritten(after, 1)
  {
    PrefixRewriteEach(content, oldPrefix, newPrefix, stamp, 0);
    ReplaceSingle(PrefixedImage(oldPrefix), content, Restamper(newPrefix, stamp), m);
  }

  /** The front-matter listener: prefixes are only rewritten when both are set and differ. */
  function OnFrontmatterUpdated(content: string, oldPrefix: string, newPrefix: string, stamp: Match -> nat): (r: Option<PrefixOutcome>)
    ensures r.Some? <==> oldPrefix != "" && newPrefix != "" && oldPrefix != newPrefix
  {
    if oldPrefix != "" && newPrefix != "" && oldPrefix != newPrefix then
      Some(UpdateImagePrefixes(content, oldPrefix, newPrefix, stamp))
    else None
  }

  /** The extension written back is the run of letters the pattern matched. */
  lemma ExtensionOfPrefixedMatch(s: string, i: nat, prefix: string)
    requires i < |s| && MatchAt(PrefixedImage(prefix), s, i).Some?
    ensures var m := MatchAt(PrefixedImage(prefix), s, i).value;
            ExtensionOfMatch(m.text) == m.ext && |m.ext| > 0
  {
    var m := MatchAt(PrefixedImage(prefix), s, i).value;
    PrefixedShape(s, i, prefix);
    ExtensionOfLetters(m.text, m.ext);
  }

  /** A text ending in `.letters)` gives back those letters. */
  lemma ExtensionOfLetters(text: string, ext: string)
    requires |ext| > 0 && forall j :: 0 <= j < |ext| ==> IsLetter(ext[j])
    requires |text| >= |ext| + 2 && text[|text| - |ext| - 2..] == "." + ext + ")"
    ensures ExtensionOfMatch(text) == ext
  {
    var n := |text| - |ext| - 2;
    var last := ext + ")";
    assert text == text[..n] + ['.'] + last;
    assert forall j :: 0 <= j < |ext| ==> last[j] == ext[j] && IsLetter(ext[j]);
    assert last[|ext|] == ')';
    AfterLastAppend(text[..n], '.', last);
    assert FindChar(last, 0, ')') == |ext|;
    assert last[..|ext|] == ext;
  }

  /** The shape of a prefixed-image match: its text ends in `.letters)`. */
  predicate EndsInExtension(m: Match)
  {
    |m.ext| > 0 && (forall j :: 0 <= j < |m.ext| ==> IsLetter(m.ext[j]))
    && |m.text| >= |m.ext| + 2 && m.text[|m.text| - |m.ext| - 2..] == "." + m.ext + ")"
  }

  lemma PrefixedShape(s: string, i: nat, prefix: string)
    requires i < |s| && MatchAt(PrefixedImage(prefix), s, i).Some?
    ensures EndsInExtension(MatchAt(PrefixedImage(prefix), s, i).value)
  {
    PrefixedMatchShape(s, i, prefix);
  }

  lemma PrefixedMatchShape(s: string, i: nat, prefix: string)
    requires i < |s| && PrefixedImageAt(s, i, prefix).Some?
    ensures EndsInExtension(PrefixedImageAt(s, i, prefix).value)
  {
    PrefixedTail(s, i, PrefixedImageAt(s, i, prefix).value);
  }

  lemma PrefixedTail(s: string, i: nat, m: Match)
    requires SpansAt(s, i, m)
    requires |m.ext| > 0 && (forall j :: 0 <= j < |m.ext| ==> IsLetter(m.ext[j]))
             && i < m.end - |m.ext| - 2 && s[m.end - |m.ext| - 2..m.end] == "." + m.ext + ")"
    ensures EndsInExtension(m)
  {
    TailSliceOfText(s, i, m.end, |m.ext| + 2);
  }

  lemma TailSliceOfText(s: string, i: nat, e: nat, n: nat)
    requires i < e - n && e <= |s|
    ensures s[i..e][|s[i..e]| - n..] == s[e - n..e]
  {
  }

  /** The plugin's own "no images" case: a note without image links is left alone. */
  lemma NoImagesExample(stamp: Match -> nat)
    ensures UpdateImagePrefixes("No images here", "old-prefix", "new-prefix", stamp) == NoImagesNotice
  {
    var t := "No images here";
    assert forall i :: 0 <= i < |t| ==> t[i] != '!';
    NoBangNoPrefixedImage(t, "old-prefix");
  }

  lemma PrefixedNeedsBang(s: string, k: nat, prefix: string)
    requires k < |s| && s[k] != '!'
    ensures MatchAt(PrefixedImage(prefix), s, k).None?
  {
    assert !OccursAt(s, "![", k);
  }

  /** Every prefixed image link starts with `!`, so a note without one has none. */
  lemma NoBangNoPrefixedImage(s: string, prefix: string)
    requires '!' !in s
    ensures AllMatches(PrefixedImage(prefix), s) == []
  {
    forall k | 0 <= k < |s| ensures MatchAt(PrefixedImage(prefix), s, k).None? {
      PrefixedNeedsBang(s, k, prefix);
    }
    NoMatchAnywhere(PrefixedImage(prefix), s);
  }
}
