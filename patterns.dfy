// The regular expressions of the plugin, each written out as a matcher that
// says whether (and how far) its pattern matches at one position.  Every
// pattern here is deterministic at a given start: its lazy or greedy parts can
// only stop at the first closing bracket, so backtracking never changes the
// outcome and each matcher is a straight scan.

module Patterns {
  import opened Common
  import opened Text

  /** `m[0]`, its position, and the capture groups the callers read. */
  datatype Match = Match(
    start: nat,      // m.index
    end: nat,        // m.index + m[0].length
    text: string,    // m[0]
    alt: string,     // alt-text group (markdown forms)
    size: string,    // `|digits` size group, "" when absent
    target: string,  // url / wiki inner / path group
    ext: string,     // letters of the extension (prefixed image form)
    bang: bool)      // the match starts with `!`

  /** `m` is a match found at `i`: it ends inside `s` and its text is `s[i..m.end]`. */
  predicate SpansAt(s: string, i: nat, m: Match)
  {
    m.start == i < m.end <= |s| && m.text == s[i..m.end]
  }

  /** Where a shape of link is looked for by `getImagePatterns`. */
  datatype LinkShape = WikiShape | MarkdownShape | MarkdownNoAltShape

  datatype Pattern =
    /** MediaToolbarDecorator: `[alt|size](url.ext...)` */
    | DecoratorMarkdown
    /** MediaToolbarDecorator: `[[inner.ext...]]` */
    | DecoratorWiki
    /** ImageWidget resize/load: `[alt|size](url)`, any url */
    | SizedMarkdown
    /** ImageWidget local resize/load: `[[path|digits]]` */
    | SizedWiki(path: string)
    /** FileNameService.getImagePatterns: one of three link shapes to `target`;
        `remote` selects the `?query` tail, otherwise the `|size` tail */
    | ImageLink(shape: LinkShape, target: string, remote: bool)
    /** FileNameService.updateImagePrefixes: `![alt](path PREFIX_digits.letters)` */
    | PrefixedImage(prefix: string)
    /** main.ts embedded-image pattern; `optionalBang` adds the leading `!?` */
    | EmbeddedImage(optionalBang: bool)

  const ImageExtensions: seq<string> := ["jpg", "jpeg", "png", "gif", "svg", "webp"]

  /** `e` (lower case) spelled, in any ASCII case, at index `i` of `u`. */
  predicate ExtensionAt(u: string, i: nat, e: string)
  {
    i + |e| <= |u| && ToLower(u[i..i + |e|]) == e
  }

  /** One of the extensions `exts` spelled at index `i` of `u`. */
  predicate AnyExtensionAt(u: string, i: nat, exts: seq<string>)
    decreases |exts|
  {
    |exts| > 0 && (ExtensionAt(u, i, exts[0]) || AnyExtensionAt(u, i, exts[1..]))
  }

  lemma {:induction false} AnyExtensionAtIff(u: string, i: nat, exts: seq<string>)
    ensures AnyExtensionAt(u, i, exts) <==> exists e :: e in exts && ExtensionAt(u, i, e)
    decreases |exts|
  {
    if |exts| > 0 {
      AnyExtensionAtIff(u, i, exts[1..]);
      if exists e :: e in exts && ExtensionAt(u, i, e) {
        var e :| e in exts && ExtensionAt(u, i, e);
        if e != exts[0] {
          assert e in exts[1..];
        }
      }
    }
  }

  /** `\.(jpg|jpeg|png|gif|svg|webp)` with the `i` flag, at index `k` of `u`. */
  predicate ImageExtAt(u: string, k: nat)
  {
    k < |u| && u[k] == '.' && AnyExtensionAt(u, k + 1, ImageExtensions)
  }

  /** Some image extension occurs in `u` with its dot at index `from` or later. */
  predicate HasImageExt(u: string, from: nat)
    decreases |u| - from
  {
    from < |u| && (ImageExtAt(u, from) || HasImageExt(u, from + 1))
  }

  lemma {:induction false} HasImageExtIff(u: string, from: nat)
    ensures HasImageExt(u, from) <==> exists k :: from <= k < |u| && ImageExtAt(u, k)
    decreases |u| - from
  {
    if from < |u| {
      HasImageExtIff(u, from + 1);
      if HasImageExt(u, from) && !ImageExtAt(u, from) {
        var k :| from + 1 <= k < |u| && ImageExtAt(u, k);
      }
    }
  }

  function Hit(s: string, i: nat, e: nat, alt: string, size: string, target: string): (m: Match)
    requires i < e <= |s|
  {
    Match(i, e, s[i..e], alt, size, target, "", false)
  }

  /** `\[([^\]|]*?)(?:\|(\d+))?\]\(` followed by a url up to the first `)`;
      with `needExt` the url must hold an image extension after its first character. */
  function SizedMarkdownAt(s: string, i: nat, needExt: bool): (r: Option<Match>)
    requires i < |s|
    ensures r.Some? ==> SpansAt(s, i, r.value)
    ensures r.Some? ==> s[i] == '[' && ']' !in r.value.alt && '|' !in r.value.alt
  {
    if s[i] != '[' then None
    else
      var q := FindEither(s, i + 1, ']', '|');
      var r := SizedAfterLabel(s, i, q, needExt);
      assert r.Some? ==> r.value.alt == s[i + 1..q] && ']' !in s[i + 1..q] && '|' !in s[i + 1..q];
      r
  }

  /** The rest of the resize pattern once the label `[alt` has run up to `q`. */
  function SizedAfterLabel(s: string, i: nat, q: nat, needExt: bool): (r: Option<Match>)
    requires i < q <= |s|
    ensures r.Some? ==> SpansAt(s, i, r.value)
    ensures r.Some? ==> r.value.alt == s[i + 1..q]
  {
    if q == |s| then None
    else if s[q] == '|' then SizedAfterDigits(s, i, q, DigitsEnd(s, q + 1), needExt)
    else if q + 1 >= |s| || s[q + 1] != '(' then None
    else UrlTail(s, i, s[i + 1..q], "", q + 2, needExt)
  }

  /** The rest of the resize pattern once the `|digits` after the label have run up to `d`. */
  function SizedAfterDigits(s: string, i: nat, q: nat, d: nat, needExt: bool): (r: Option<Match>)
    requires i < q < d <= |s|
    ensures r.Some? ==> SpansAt(s, i, r.value)
    ensures r.Some? ==> r.value.alt == s[i + 1..q]
  {
    if d == q + 1 || d + 1 >= |s| || s[d] != ']' || s[d + 1] != '(' then None
    else UrlTail(s, i, s[i + 1..q], s[q + 1..d], d + 2, needExt)
  }

  function UrlTail(s: string, i: nat, alt: string, size: string, u: nat, needExt: bool): (r: Option<Match>)
    requires i < u <= |s|
    ensures r.Some? ==> SpansAt(s, i, r.value)
    ensures r.Some? ==> r.value.alt == alt
  {
    var c := FindChar(s, u, ')');
    if c == |s| || (needExt && !HasImageExt(s[u..c], 1)) then None
    else Some(Hit(s, i, c + 1, alt, size, s[u..c]))
  }

  /** `\[\[([^\]]*\.(ext)[^\]]*)\]\]`; `minDot` is where the extension's dot may first stand. */
  function WikiExtAt(s: string, i: nat, minDot: nat): (r: Option<Match>)
    requires i <= |s|
    ensures r.Some? ==> SpansAt(s, i, r.value)
    ensures r.Some? <==> OccursAt(s, "[[", i) && OccursAt(s, "]]", FindChar(s, i + 2, ']'))
                         && HasImageExt(s[i + 2..FindChar(s, i + 2, ']')], minDot)
    ensures r.Some? ==> r.value.end == FindChar(s, i + 2, ']') + 2
  {
    if !OccursAt(s, "[[", i) then None
    else
      var c := FindChar(s, i + 2, ']');
      if !OccursAt(s, "]]", c) || !HasImageExt(s[i + 2..c], minDot) then None
      else Some(Hit(s, i, c + 2, "", "", s[i + 2..c]))
  }

  /** `\[\[PATH\|(\d+)\]\]` with PATH taken literally. */
  function SizedWikiAt(s: string, i: nat, path: string): (r: Option<Match>)
    requires i < |s|
    ensures r.Some? ==> SpansAt(s, i, r.value)
    ensures r.Some? ==> |r.value.size| >= 1 && AllDigits(r.value.size)
                        && r.value.text == "[[" + path + "|" + r.value.size + "]]"
  {
    if !OccursAt(s, "[[" + path + "|", i) then None
    else
      var d0 := i + |path| + 3;
      var d := DigitsEnd(s, d0);
      if d == d0 || !OccursAt(s, "]]", d) then None
      else Some(Hit(s, i, d + 2, "", s[d0..d], path))
  }

  /** The end of `(?:\?[^\]]*)?\]\]` (remote) or `(?:\|\d+)?\]\]` (local) at `k`. */
  function WikiTail(s: string, k: nat, remote: bool): (r: Option<nat>)
    requires k <= |s|
    ensures r.Some? ==> k < r.value <= |s|
  {
    if k < |s| && s[k] == (if remote then '?' else '|') then
      var c := if remote then FindChar(s, k + 1, ']') else DigitsEnd(s, k + 1);
      if (!remote && c == k + 1) || !OccursAt(s, "]]", c) then None else Some(c + 2)
    else if OccursAt(s, "]]", k) then Some(k + 2)
    else None
  }

  /** The end of `(?:\?[^)]*)?\)` (remote) or `(?:\|\d+)?\)` (local) at `k`. */
  function ParenTail(s: string, k: nat, remote: bool): (r: Option<nat>)
    requires k <= |s|
    ensures r.Some? ==> k < r.value <= |s|
  {
    if k < |s| && s[k] == (if remote then '?' else '|') then
      var c := if remote then FindChar(s, k + 1, ')') else DigitsEnd(s, k + 1);
      if (!remote && c == k + 1) || c == |s| || s[c] != ')' then None else Some(c + 1)
    else if k < |s| && s[k] == ')' then Some(k + 1)
    else None
  }

  /** One of the three link shapes of `getImagePatterns`, without the leading `!?`. */
  function ImageLinkCore(s: string, j: nat, shape: LinkShape, target: string, remote: bool): (r: Option<Match>)
    requires j <= |s|
    ensures r.Some? ==> SpansAt(s, j, r.value)
  {
    match shape
    case WikiShape => WikiLinkAt(s, j, target, remote)
    case MarkdownShape => MarkdownLinkAt(s, j, target, remote)
    case MarkdownNoAltShape => NoAltLinkAt(s, j, target, remote)
  }

  /** The wiki shape `[[target tail]]` at `j`. */
  function WikiLinkAt(s: string, j: nat, target: string, remote: bool): (r: Option<Match>)
    requires j <= |s|
    ensures r.Some? ==> SpansAt(s, j, r.value)
  {
    if !OccursAt(s, "[[" + target, j) then None
    else
      var wikiEnd := WikiTail(s, j + 2 + |target|, remote);
      if wikiEnd.None? then None else Some(Hit(s, j, wikiEnd.value, "", "", target))
  }

  /** The markdown shape `[alt](target tail)` at `j`, the label running to the first `]`. */
  function MarkdownLinkAt(s: string, j: nat, target: string, remote: bool): (r: Option<Match>)
    requires j <= |s|
    ensures r.Some? ==> SpansAt(s, j, r.value)
  {
    if j == |s| || s[j] != '[' then None
    else MarkdownAfterLabel(s, j, FindChar(s, j + 1, ']'), target, remote)
  }

  /** The markdown shape once its label has run up to the `]` at `q`. */
  function MarkdownAfterLabel(s: string, j: nat, q: nat, target: string, remote: bool): (r: Option<Match>)
    requires j < q <= |s|
    ensures r.Some? ==> SpansAt(s, j, r.value)
  {
    if !OccursAt(s, "](" + target, q) then None
    else MarkdownClose(s, j, q, target, ParenTail(s, q + 2 + |target|, remote))
  }

  /** The markdown shape once its tail has been read up to `e`, if it could be. */
  function MarkdownClose(s: string, j: nat, q: nat, target: string, e: Option<nat>): (r: Option<Match>)
    requires j < q <= |s| && (e.Some? ==> q < e.value <= |s|)
    ensures r.Some? ==> SpansAt(s, j, r.value)
  {
    match e
    case None => None
    case Some(v) => Some(Hit(s, j, v, s[j + 1..q], "", target))
  }

  /** The markdown shape without a label, `[](target tail)`, at `j`. */
  function NoAltLinkAt(s: string, j: nat, target: string, remote: bool): (r: Option<Match>)
    requires j <= |s|
    ensures r.Some? ==> SpansAt(s, j, r.value)
  {
    if !OccursAt(s, "[](" + target, j) then None
    else
      var bareEnd := ParenTail(s, j + 3 + |target|, remote);
      if bareEnd.None? then None else Some(Hit(s, j, bareEnd.value, "", "", target))
  }

  /** A pattern whose core starts with `[`, preceded by an optional `!`. */
  function WithBang(s: string, i: nat, core: Option<Match>): (r: Option<Match>)
    requires i < |s|
    requires core.Some? ==> core.value.start == (if s[i] == '!' then i + 1 else i)
    requires core.Some? ==> core.value.start < core.value.end <= |s| && core.value.text == s[core.value.start..core.value.end]
    ensures r.Some? ==> SpansAt(s, i, r.value)
  {
    match core
    case None => None
    case Some(m) => Some(m.(start := i, text := s[i..m.end], bang := s[i] == '!'))
  }

  /** Where a prefix tail ends, and the letters of its extension. */
  datatype Tail = Tail(end: nat, ext: string)

  /** The end of the tail `PREFIX_\d+\.[a-zA-Z]+\)` starting at `e`, with its letters. */
  function PrefixTail(s: string, e: nat, prefix: string): (r: Option<Tail>)
    requires e <= |s|
    ensures r.Some? ==> e < r.value.end <= |s|
    ensures r.Some? ==> var t := r.value;
                        |t.ext| > 0 && e < t.end - |t.ext| - 2 && s[t.end - |t.ext| - 2..t.end] == "." + t.ext + ")"
                        && forall j :: 0 <= j < |t.ext| ==> IsLetter(t.ext[j])
  {
    if !OccursAt(s, prefix + "_", e) then None
    else
      var d0 := e + |prefix| + 1;
      var d := DigitsEnd(s, d0);
      if d == d0 || d == |s| || s[d] != '.' then None
      else
        var l := LettersEnd(s, d + 1);
        if l == d + 1 || l == |s| || s[l] != ')' then None
        else Some(Tail(l + 1, s[d + 1..l]))
  }

  /** The end of the run of ASCII letters that starts at `from`. */
  function LettersEnd(s: string, from: nat): (k: nat)
    requires from <= |s|
    ensures from <= k <= |s|
    ensures k < |s| ==> !IsLetter(s[k])
    ensures forall j :: from <= j < k ==> IsLetter(s[j])
    decreases |s| - from
  {
    if from == |s| || !IsLetter(s[from]) then from else LettersEnd(s, from + 1)
  }

  /** The greedy `([^\)]*)` before the prefix tail: the longest path ending at or
      before `e` (and not before `lo`) that the tail can follow. */
  function LongestPath(s: string, lo: nat, e: nat, prefix: string): (r: Option<nat>)
    requires lo <= e <= |s|
    ensures r.Some? ==> lo <= r.value <= e && PrefixTail(s, r.value, prefix).Some?
    ensures forall k :: (if r.Some? then r.value else lo - 1) < k <= e ==> PrefixTail(s, k, prefix).None?
    decreases e - lo
  {
    if PrefixTail(s, e, prefix).Some? then Some(e)
    else if e == lo then None
    else LongestPath(s, lo, e - 1, prefix)
  }

  /** `!\[([^\]]*)\]\(([^\)]*)PREFIX_\d+\.[a-zA-Z]+\)`. */
  function PrefixedImageAt(s: string, i: nat, prefix: string): (r: Option<Match>)
    requires i < |s|
    ensures r.Some? ==> SpansAt(s, i, r.value)
    ensures r.Some? ==> var m := r.value;
                        |m.ext| > 0 && (forall j :: 0 <= j < |m.ext| ==> IsLetter(m.ext[j]))
                        && i < m.end - |m.ext| - 2 && s[m.end - |m.ext| - 2..m.end] == "." + m.ext + ")"
  {
    if !OccursAt(s, "![", i) then None
    else PrefixedAfterLabel(s, i, FindChar(s, i + 2, ']'), prefix)
  }

  /** The rest of the prefix pattern once the label has ended at `q`. */
  function PrefixedAfterLabel(s: string, i: nat, q: nat, prefix: string): (r: Option<Match>)
    requires i + 2 <= q <= |s|
    ensures r.Some? ==> SpansAt(s, i, r.value)
    ensures r.Some? ==> var m := r.value;
                        |m.ext| > 0 && (forall j :: 0 <= j < |m.ext| ==> IsLetter(m.ext[j]))
                        && i < m.end - |m.ext| - 2 && s[m.end - |m.ext| - 2..m.end] == "." + m.ext + ")"
  {
    if !OccursAt(s, "](", q) then None
    else PrefixedPath(s, i, q, LongestPath(s, q + 2, FindChar(s, q + 2, ')'), prefix), prefix)
  }

  /** The match once the path has been found to end at `p`, where the prefixed tail starts. */
  function PrefixedPath(s: string, i: nat, q: nat, p: Option<nat>, prefix: string): (r: Option<Match>)
    requires i + 2 <= q && q + 2 <= |s|
    requires p.Some? ==> q + 2 <= p.value <= |s|
    ensures r.Some? ==> SpansAt(s, i, r.value)
    ensures r.Some? ==> var m := r.value;
                        |m.ext| > 0 && (forall j :: 0 <= j < |m.ext| ==> IsLetter(m.ext[j]))
                        && i < m.end - |m.ext| - 2 && s[m.end - |m.ext| - 2..m.end] == "." + m.ext + ")"
  {
    if p.None? then None
    else
      match PrefixTail(s, p.value, prefix)
      case None => None
      case Some(tail) => Some(Match(i, tail.end, s[i..tail.end], s[i + 2..q], "", s[q + 2..p.value], tail.ext, true))
  }


  /** The first `]` after the `[` at `j`: where a markdown label ends. */
  function LabelEnd(s: string, j: nat): (q: nat)
    requires j < |s|
    ensures j < q <= |s|
  {
    FindChar(s, j + 1, ']')
  }

  /** The first `)` after the `](` at `q`: where a markdown url ends. */
  function UrlEnd(s: string, q: nat): (c: nat)
    requires q + 2 <= |s|
    ensures q + 2 <= c <= |s|
  {
    FindChar(s, q + 2, ')')
  }

  /** `\[([^\]]*)\]\(([^)]+\.(ext)[^)]*)\)` at `j`: the label runs to the first `]`,
      the url to the first `)`, and the url holds an image extension after its first
      character. */
  function MarkdownExtAt(s: string, j: nat): (r: Option<Match>)
    requires j <= |s|
    ensures r.Some? ==> SpansAt(s, j, r.value)
    ensures j < |s| && s[j] == '[' ==>
              var q := LabelEnd(s, j);
              (r.Some? <==> OccursAt(s, "](", q) && UrlEnd(s, q) < |s| && HasImageExt(s[q + 2..UrlEnd(s, q)], 1))
              && (r.Some? ==> r.value.end == UrlEnd(s, q) + 1)
    ensures j == |s| || s[j] != '[' ==> r.None?
  {
    if j == |s| || s[j] != '[' then None
    else
      var q := LabelEnd(s, j);
      if !OccursAt(s, "](", q) then None
      else
        var c := UrlEnd(s, q);
        if c == |s| || !HasImageExt(s[q + 2..c], 1) then None
        else Some(Hit(s, j, c + 1, s[j + 1..q], "", s[q + 2..c]))
  }

  /** The two alternatives of main.ts's embedded-image pattern at `j`: the wiki form
      `\[\[([^\]]+\.(ext)[^\]]*)\]\]`, else the markdown form. */
  function EmbeddedCore(s: string, j: nat): (r: Option<Match>)
    requires j <= |s|
    ensures r.Some? ==> SpansAt(s, j, r.value)
    ensures r == if WikiExtAt(s, j, 1).Some? then WikiExtAt(s, j, 1) else MarkdownExtAt(s, j)
  {
    var w := WikiExtAt(s, j, 1);
    if w.Some? then w else MarkdownExtAt(s, j)
  }

  /** Whether (and how) `p` matches `s` at index `i`. */
  function MatchAt(p: Pattern, s: string, i: nat): (r: Option<Match>)
    requires i < |s|
    ensures r.Some? ==> SpansAt(s, i, r.value)
  {
    match p
    case DecoratorMarkdown => SizedMarkdownAt(s, i, true)
    case DecoratorWiki => WikiExtAt(s, i, 0)
    case SizedMarkdown => SizedMarkdownAt(s, i, false)
    case SizedWiki(path) => SizedWikiAt(s, i, path)
    case ImageLink(shape, target, remote) =>
      WithBang(s, i, ImageLinkCore(s, if s[i] == '!' then i + 1 else i, shape, target, remote))
    case PrefixedImage(prefix) => PrefixedImageAt(s, i, prefix)
    case EmbeddedImage(optionalBang) =>
      if optionalBang then WithBang(s, i, EmbeddedCore(s, if s[i] == '!' then i + 1 else i))
      else EmbeddedCore(s, i)
  }

  /** `m[0].match(/\]\((.*?)\)/)?.[1]`: the text after the first `](` whose closing
      `)` comes before any line terminator. */
  function ParenUrl(t: string, from: nat): (r: Option<string>)
    requires from <= |t|
    ensures r.Some? ==> ')' !in r.value && forall j :: 0 <= j < |r.value| ==> !IsLineTerminator(r.value[j])
    decreases |t| - from
  {
    if from + 2 > |t| then None
    else if t[from..from + 2] == "](" && ClosesOnLine(t, from + 2) then
      Some(t[from + 2..FindChar(t, from + 2, ')')])
    else ParenUrl(t, from + 1)
  }

  /** The first `)` at or after `u` exists and no line terminator stands before it. */
  predicate ClosesOnLine(t: string, u: nat)
    requires u <= |t|
  {
    var c := FindChar(t, u, ')');
    c < |t| && forall j :: u <= j < c ==> !IsLineTerminator(t[j])
  }

  /** `m[0].match(/\|(\d+)\]/)?.[1]`: the first `|digits]` in the text. */
  function SizeToken(t: string, from: nat): (r: Option<string>)
    requires from <= |t|
    ensures r.Some? ==> |r.value| >= 1 && AllDigits(r.value)
    decreases |t| - from
  {
    if from >= |t| then None
    else if t[from] == '|' && DigitsEnd(t, from + 1) > from + 1 && DigitsEnd(t, from + 1) < |t|
            && t[DigitsEnd(t, from + 1)] == ']' then
      Some(t[from + 1..DigitsEnd(t, from + 1)])
    else SizeToken(t, from + 1)
  }
}
