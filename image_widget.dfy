// ImageWidget: the toolbar shown under an image link.  Its slider maps five
// positions to pixel widths and writes the chosen width into the link nearest
// to the widget; its delete button removes the nearest link to the image.

module ImageWidget {
  import opened Common
  import opened Text
  import opened Patterns
  import opened Scan
  import opened Media
  import opened Editor
  import ImagePath
  import FileNames
  import Decorator

  // ----- the size table -----

  /** `sizePixels`: slider positions 1..5. */
  function SizePixels(p: nat): nat
    requires 1 <= p <= 5
  {
    if p == 1 then 100 else if p == 2 then 200 else if p == 3 then 400 else if p == 4 then 600 else 800
  }

  /** The `for (const [position, pixels] of Object.entries(sizePixels))` search from
      position `k` on: the first position wide enough, else `'5'`. */
  function PositionFrom(width: nat, k: nat): (p: nat)
    requires 1 <= k <= 6
    ensures k <= p <= 5 || (k == 6 && p == 5)
    decreases 6 - k
  {
    if k > 5 then 5 else if width <= SizePixels(k) then k else PositionFrom(width, k + 1)
  }

  /** The slider position of a stored width: the smallest position whose pixel width
      is at least `width`, or 5 above 800 px. */
  function PositionFor(width: nat): (p: nat)
    ensures 1 <= p <= 5
    ensures width <= 800 ==> width <= SizePixels(p) && (p == 1 || SizePixels(p - 1) < width)
    ensures width > 800 ==> p == 5
  {
    PositionFrom(width, 1)
  }

  /** Position -> pixels -> position is the identity. */
  lemma PositionOfPixels(p: nat)
    requires 1 <= p <= 5
    ensures PositionFor(SizePixels(p)) == p
  {
  }

  /** A wider stored width never maps to a smaller position. */
  lemma PositionForMonotone(a: nat, b: nat)
    requires a <= b
    ensures PositionFor(a) <= PositionFor(b)
  {
  }

  /** The width -> position loop of `loadSavedSize`. */
  method PositionForWidth(width: nat) returns (position: nat)
    ensures position == PositionFor(width)
  {
    var k := 1;
    while k <= 5
      invariant 1 <= k <= 6
      invariant PositionFrom(width, k) == PositionFrom(width, 1)
      decreases 6 - k
    {
      if width <= SizePixels(k) {
        return k;
      }
      k := k + 1;
    }
    return 5;
  }

  const WidthNames: seq<string> := ["extra-small", "small", "medium", "large", "extra-large"]

  /** The position for the `defaultImageWidth` setting (absent when unset):
      `extra-small`..`extra-large` give 1..5, anything else 3. */
  function DefaultPosition(setting: Option<string>): (p: nat)
    ensures 1 <= p <= 5
    ensures setting.Some? && setting.value in WidthNames ==> WidthNames[p - 1] == setting.value
    ensures setting.None? || setting.value !in WidthNames ==> p == 3
  {
    if setting.None? then 3
    else if setting.value == "extra-small" then 1
    else if setting.value == "small" then 2
    else if setting.value == "medium" then 3
    else if setting.value == "large" then 4
    else if setting.value == "extra-large" then 5
    else 3
  }

  // ----- image handlers -----

  /** `getType()` of the handler `createHandler` builds. */
  datatype HandlerType = LocalImage | CloudImage | ExternalImage

  /** `createHandler(url).getType()`: local unless the url starts with `http`; an http
      url is cloud when `isKnownService` recognises its host, external otherwise. */
  function HandlerTypeOf(url: string): (t: HandlerType)
  {
    if !StartsWith(url, "http") then LocalImage
    else if KnownHost(url) then CloudImage
    else ExternalImage
  }

  /** For http(s) urls the handler agrees with the link type of the decorator: external
      exactly when the decorator calls the link external, cloud exactly when it names one
      of the services. */
  lemma HandlerAgreesWithLinkType(url: string)
    requires ImagePath.IsUrl(url)
    ensures HandlerTypeOf(url) == ExternalImage <==> Decorator.DetectLinkType(url) == External
    ensures HandlerTypeOf(url) == CloudImage <==> Decorator.DetectLinkType(url) in {Cloudinary, Bunny, Cloudflare, TwicPics}
  {
    assert StartsWith(url, "http") by {
      assert url[..4] == "http";
    }
  }

  /** What `handler.delete()` asks the media service to do. */
  datatype DeleteRequest = NoRequest | LocalDelete(path: string) | CloudDelete(url: string)

  /** `delete()`: the local service for local paths, the configured service for a known
      host; an external image is never deleted. */
  function HandlerDelete(url: string): (r: DeleteRequest)
    ensures r == NoRequest <==> HandlerTypeOf(url) == ExternalImage
    ensures r.LocalDelete? <==> HandlerTypeOf(url) == LocalImage
    ensures r.LocalDelete? ==> r.path == url
    ensures r.CloudDelete? ==> r.url == url
  {
    if !StartsWith(url, "http") then LocalDelete(url)
    else if KnownHost(url) then CloudDelete(url)
    else NoRequest
  }

  /** The widget's `url`: the resolved url without its `|size`. */
  function WidgetUrl(info: MediaLinkInfo): string
  {
    Before(info.resolvedUrl, '|')
  }

  // ----- updateImageUrl -----

  /** `updateImageUrl(oldLink, width)`: the cleaned widget url (cloud and external) or
      cleaned old link (local), then `|` and the width. */
  function UpdateImageUrl(t: HandlerType, url: string, oldLink: string, width: nat): string
  {
    ImagePath.CleanPath(if t != LocalImage then url else oldLink) + "|" + NatToString(width)
  }

  /** Splitting the produced link on `|` gives the two parts back, so
      `newLink.split('|')[1]` is the width. */
  lemma UpdateImageUrlParts(t: HandlerType, url: string, oldLink: string, width: nat)
    ensures var r := UpdateImageUrl(t, url, oldLink, width);
            && Split(r, '|') == [ImagePath.CleanPath(if t != LocalImage then url else oldLink), NatToString(width)]
            && PartOr(Split(r, '|'), 1) == NatToString(width)
  {
    var base := ImagePath.CleanPath(if t != LocalImage then url else oldLink);
    assert '|' !in NatToString(width) by {
      assert forall j :: 0 <= j < |NatToString(width)| ==> IsDigit(NatToString(width)[j]);
    }
    SplitPair(base, NatToString(width), '|');
  }

  /** Writing the same width again over the produced link gives the same link. */
  lemma UpdateImageUrlIdempotent(t: HandlerType, url: string, oldLink: string, width: nat)
    ensures UpdateImageUrl(t, url, UpdateImageUrl(t, url, oldLink, width), width) == UpdateImageUrl(t, url, oldLink, width)
  {
    if t == LocalImage {
      var base := ImagePath.CleanPath(oldLink);
      ImagePath.CleanPathDropsSize(base, NatToString(width));
      ImagePath.TrimOfTrimmed(base);
    }
  }

  // ----- nearest match -----

  function Dist(a: nat, b: nat): nat
  {
    if a >= b then a - b else b - a
  }

  /** The candidate the `distance < minDistance` loop settles on, as an index: one at the
      smallest distance from `target`, the first such one on ties. */
  function Nearest(cs: seq<Match>, target: nat): (r: Option<nat>)
    ensures r.None? <==> |cs| == 0
    ensures r.Some? ==> r.value < |cs|
                        && (forall j :: 0 <= j < |cs| ==> Dist(cs[r.value].start, target) <= Dist(cs[j].start, target))
                        && (forall j :: 0 <= j < r.value ==> Dist(cs[r.value].start, target) < Dist(cs[j].start, target))
  {
    if |cs| == 0 then None
    else
      var r := Nearest(cs[..|cs| - 1], target);
      if r.None? || Dist(cs[|cs| - 1].start, target) < Dist(cs[r.value].start, target) then Some(|cs| - 1)
      else r
  }

  /** The matches the loop's condition keeps, in scan order. */
  function Kept(ms: seq<Match>, keep: Match -> bool): (cs: seq<Match>)
    ensures forall c :: c in cs ==> c in ms && keep(c)
    ensures forall m :: m in ms && keep(m) ==> m in cs
  {
    if |ms| == 0 then []
    else Kept(ms[..|ms| - 1], keep) + (if keep(ms[|ms| - 1]) then [ms[|ms| - 1]] else [])
  }

  function NearestMatch(cs: seq<Match>, target: nat): (r: Option<Match>)
    ensures r.None? <==> |cs| == 0
    ensures r.Some? ==> r.value in cs
  {
    var r := Nearest(cs, target);
    if r.None? then None else Some(cs[r.value])
  }

  /** No candidate is nearer to the target than the one chosen, and every one before it
      in scan order is strictly farther. */
  lemma NearestMatchIsNearest(cs: seq<Match>, target: nat)
    ensures var r := NearestMatch(cs, target);
            r.Some? ==>
              && (forall c :: c in cs ==> Dist(r.value.start, target) <= Dist(c.start, target))
              && exists i :: 0 <= i < |cs| && cs[i] == r.value
                             && forall j :: 0 <= j < i ==> Dist(r.value.start, target) < Dist(cs[j].start, target)
  {
    var r := Nearest(cs, target);
    if r.Some? {
      assert cs[r.value] == NearestMatch(cs, target).value;
    }
  }

  lemma KeptStep(prior: seq<Match>, ms: seq<Match>, keep: Match -> bool, i: nat)
    requires i < |ms|
    ensures keep(ms[i]) ==> prior + Kept(ms[..i + 1], keep) == (prior + Kept(ms[..i], keep)) + [ms[i]]
    ensures !keep(ms[i]) ==> prior + Kept(ms[..i + 1], keep) == prior + Kept(ms[..i], keep)
  {
    assert ms[..i + 1][..i] == ms[..i];
    assert Kept(ms[..i], keep) + [] == Kept(ms[..i], keep);
  }

  /** One more candidate replaces the current one only when strictly nearer. */
  lemma NearestAppend(cs: seq<Match>, c: Match, target: nat)
    ensures var b := NearestMatch(cs, target);
            NearestMatch(cs + [c], target)
            == if b.None? || Dist(c.start, target) < Dist(b.value.start, target) then Some(c) else b
  {
    assert (cs + [c])[..|cs|] == cs;
  }

  /** The search loop shared by the resize, load and delete handlers: keep the matches
      the condition accepts and remember the one with the smallest `|index - target|`,
      replacing it only on a strictly smaller distance.  `best0` is the outcome of the
      candidates `prior` seen before (the delete handler runs it once per pattern). */
  method NearestKept(ms: seq<Match>, keep: Match -> bool, target: nat, prior: seq<Match>, best0: Option<Match>)
    returns (best: Option<Match>)
    requires best0 == NearestMatch(prior, target)
    ensures best == NearestMatch(prior + Kept(ms, keep), target)
  {
    best := best0;
    var minDistance: nat := if best0.Some? then Dist(best0.value.start, target) else 0;
    ghost var seen := prior;
    assert prior + Kept(ms[..0], keep) == prior;
    for i := 0 to |ms|
      invariant seen == prior + Kept(ms[..i], keep)
      invariant best == NearestMatch(seen, target)
      invariant best.Some? ==> minDistance == Dist(best.value.start, target)
    {
      KeptStep(prior, ms, keep, i);
      if keep(ms[i]) {
        NearestAppend(seen, ms[i], target);
        var distance := Dist(ms[i].start, target);
        if best.None? || distance < minDistance {
          minDistance := distance;
          best := Some(ms[i]);
        }
        seen := seen + [ms[i]];
      }
    }
    assert ms[..|ms|] == ms;
  }

  /** The `while ((match = regex.exec(content)) !== null) lastMatch = match` loop. */
  method LastMatch(p: Pattern, content: string) returns (last: Option<Match>)
    ensures var ms := AllMatches(p, content); last == if |ms| == 0 then None else Some(ms[|ms| - 1])
  {
    last := None;
    var lastIndex := 0;
    var next := NextMatch(p, content, 0);
    ghost var seen: seq<Match> := [];
    while next.Some?
      invariant lastIndex <= |content| && next == NextMatch(p, content, lastIndex)
      invariant seen + FindAll(p, content, lastIndex) == AllMatches(p, content)
      invariant last == if |seen| == 0 then None else Some(seen[|seen| - 1])
      decreases |content| - lastIndex
    {
      FindAllNext(p, content, lastIndex);
      SeenStep(seen, next.value, FindAll(p, content, next.value.end));
      last := next;
      seen := seen + [next.value];
      lastIndex := next.value.end;
      next := NextMatch(p, content, lastIndex);
    }
    FindAllNext(p, content, lastIndex);
    SeenAll(seen, FindAll(p, content, lastIndex), AllMatches(p, content), last);
  }

  lemma SeenAll(seen: seq<Match>, rest: seq<Match>, all: seq<Match>, last: Option<Match>)
    requires seen + rest == all && rest == []
    requires last == if |seen| == 0 then None else Some(seen[|seen| - 1])
    ensures last == if |all| == 0 then None else Some(all[|all| - 1])
  {
    assert seen + [] == seen;
  }

  lemma SeenStep(seen: seq<Match>, m: Match, rest: seq<Match>)
    ensures seen + ([m] + rest) == (seen + [m]) + rest
  {
  }

  // ----- resize: updateLinkInEditor -----

  /** The url `m[0].match(/\]\((.*?)\)/)` reads in a markdown match, compared after
      normalisation with the widget's url. */
  predicate SameUrl(m: Match, base: string, normalize: string -> string)
  {
    ParenUrl(m.text, 0).Some? && normalize(ParenUrl(m.text, 0).value) == normalize(base)
  }

  function UrlKeep(base: string, normalize: string -> string): Match -> bool
  {
    m => SameUrl(m, base, normalize)
  }

  /** `[${altText}|${width}](${originalUrl})`, the alt text cut at any `|`. */
  function ExternalReplacement(alt: string, width: string, url: string): string
  {
    "[" + Before(alt, '|') + "|" + width + "](" + url + ")"
  }

  /** `[[${basePath}|${width}]]`. */
  function WikiReplacement(path: string, width: string): string
  {
    "[[" + path + "|" + width + "]]"
  }

  /** A span of the document and the text written over it. */
  datatype Rewrite = Rewrite(start: nat, end: nat, replacement: string)

  /** The link `updateLinkInEditor` rewrites: for an external or cloud image the sized
      markdown link with the same url nearest to the widget (the first of equally near
      ones), for a local image the last sized wiki link to the same path. */
  function ResizeTarget(content: string, t: HandlerType, url: string, oldLink: string,
                        startPosition: nat, normalize: string -> string): (r: Option<Match>)
    ensures r.Some? && t != LocalImage ==>
              r.value in AllMatches(SizedMarkdown, content) && SameUrl(r.value, ImagePath.CleanPath(url), normalize)
    ensures r.Some? && t == LocalImage ==> r.value in AllMatches(SizedWiki(ImagePath.CleanPath(oldLink)), content)
    ensures r.None? && t != LocalImage ==> Kept(AllMatches(SizedMarkdown, content), UrlKeep(ImagePath.CleanPath(url), normalize)) == []
    ensures r.None? && t == LocalImage ==> AllMatches(SizedWiki(ImagePath.CleanPath(oldLink)), content) == []
  {
    if t != LocalImage then
      NearestMatch(Kept(AllMatches(SizedMarkdown, content), UrlKeep(ImagePath.CleanPath(url), normalize)), startPosition)
    else
      var ms := AllMatches(SizedWiki(ImagePath.CleanPath(oldLink)), content);
      if |ms| == 0 then None else Some(ms[|ms| - 1])
  }

  /** The text written over the located link: the `[alt|width](url)` or `[[path|width]]`
      template of `updateLinkInEditor`. */
  function Replacement(m: Match, t: HandlerType, oldLink: string, width: string): string
    requires t != LocalImage ==> ParenUrl(m.text, 0).Some?
  {
    if t != LocalImage then ExternalReplacement(m.alt, width, ParenUrl(m.text, 0).value)
    else WikiReplacement(ImagePath.CleanPath(oldLink), width)
  }

  /** The replacement text and span for the target link, with the width taken from the
      part after `|` of the new link. */
  function ResizeRewrite(content: string, t: HandlerType, url: string, oldLink: string, newLink: string,
                         startPosition: nat, normalize: string -> string): (r: Option<Rewrite>)
    ensures r.Some? ==> r.value.start < r.value.end <= |content|
    ensures r.Some? <==> ResizeTarget(content, t, url, oldLink, startPosition, normalize).Some?
  {
    match ResizeTarget(content, t, url, oldLink, startPosition, normalize)
    case None => None
    case Some(m) =>
      TargetInText(content, t, url, oldLink, startPosition, normalize, m);
      Some(Rewrite(m.start, m.start + |m.text|, Replacement(m, t, oldLink, PartOr(Split(newLink, '|'), 1))))
  }

  /** The editor text after `updateLinkInEditor`: the rewrite spliced over its span. */
  function Resized(content: string, t: HandlerType, url: string, oldLink: string, newLink: string,
                   startPosition: nat, normalize: string -> string): string
  {
    var r := ResizeRewrite(content, t, url, oldLink, newLink, startPosition, normalize);
    if r.None? then content else Splice(content, r.value.start, r.value.end, r.value.replacement)
  }

  /** A link found by the resize or load patterns lies in the document and starts
      with `[`. */
  lemma FoundLink(p: Pattern, s: string, m: Match)
    requires p == SizedMarkdown || p.SizedWiki?
    requires m in AllMatches(p, s)
    ensures m.start < m.end <= |s| && m.text == s[m.start..m.end] && s[m.start] == '['
    ensures m.start + |m.text| == m.end
  {
    FoundLinkAt(p, s, m);
    if p == SizedMarkdown {
      assert SizedMarkdownAt(s, m.start, false) == Some(m);
    } else {
      assert SizedWikiAt(s, m.start, p.path) == Some(m);
      assert m.text[0] == '[';
    }
  }

  /** The search half of `updateLinkInEditor`: the regex loops that pick the link. */
  method LocateResizeTarget(content: string, t: HandlerType, url: string, oldLink: string,
                            startPosition: nat, normalize: string -> string) returns (target: Option<Match>)
    ensures target == ResizeTarget(content, t, url, oldLink, startPosition, normalize)
  {
    if t != LocalImage {
      var keep := UrlKeep(ImagePath.CleanPath(url), normalize);
      var ms := AllMatches(SizedMarkdown, content);
      target := NearestKept(ms, keep, startPosition, [], None);
      assert [] + Kept(ms, keep) == Kept(ms, keep);
    } else {
      target := LastMatch(SizedWiki(ImagePath.CleanPath(oldLink)), content);
    }
  }

  /** A link the scan found is the pattern's match at its own start. */
  lemma FoundLinkAt(p: Pattern, s: string, m: Match)
    requires m in AllMatches(p, s)
    ensures m.start < |s| && MatchAt(p, s, m.start) == Some(m)
    ensures m.start + |m.text| <= |s| && m.text == s[m.start..m.start + |m.text|]
  {
    var ms := AllMatches(p, s);
    var k :| 0 <= k < |ms| && ms[k] == m;
    FindAllAt(p, s, 0, k);
    MatchSpan(p, s, m);
  }

  lemma MatchSpan(p: Pattern, s: string, m: Match)
    requires m.start < |s| && MatchAt(p, s, m.start) == Some(m)
    ensures m.start + |m.text| <= |s| && m.text == s[m.start..m.start + |m.text|]
  {
  }

  /** The located link lies in the text and starts with `[`, and the rewrite replaces
      exactly its span. */
  lemma RewriteOfTarget(content: string, t: HandlerType, url: string, oldLink: string, newLink: string,
                        startPosition: nat, normalize: string -> string, m: Match)
    requires ResizeTarget(content, t, url, oldLink, startPosition, normalize) == Some(m)
    ensures 0 < |m.text| && m.start + |m.text| <= |content| && content[m.start] == '['
    ensures t != LocalImage ==> ParenUrl(m.text, 0).Some?
    ensures ResizeRewrite(content, t, url, oldLink, newLink, startPosition, normalize)
            == Some(Rewrite(m.start, m.start + |m.text|, Replacement(m, t, oldLink, PartOr(Split(newLink, '|'), 1))))
  {
    TargetInText(content, t, url, oldLink, startPosition, normalize, m);
    RewriteOfSome(content, t, url, oldLink, newLink, startPosition, normalize, m);
  }

  lemma TargetInText(content: string, t: HandlerType, url: string, oldLink: string,
                     startPosition: nat, normalize: string -> string, m: Match)
    requires ResizeTarget(content, t, url, oldLink, startPosition, normalize) == Some(m)
    ensures 0 < |m.text| && m.start + |m.text| <= |content| && content[m.start] == '['
  {
    if t != LocalImage {
      FoundLink(SizedMarkdown, content, m);
    } else {
      FoundLink(SizedWiki(ImagePath.CleanPath(oldLink)), content, m);
    }
  }

  lemma RewriteOfSome(content: string, t: HandlerType, url: string, oldLink: string, newLink: string,
                      startPosition: nat, normalize: string -> string, m: Match)
    requires ResizeTarget(content, t, url, oldLink, startPosition, normalize) == Some(m)
    ensures t != LocalImage ==> ParenUrl(m.text, 0).Some?
    ensures ResizeRewrite(content, t, url, oldLink, newLink, startPosition, normalize)
            == Some(Rewrite(m.start, m.start + |m.text|, Replacement(m, t, oldLink, PartOr(Split(newLink, '|'), 1))))
  {
  }

  /** `updateLinkInEditor(oldLink, newLink)`: locate the link, turn its index into the
      editor's (line, ch) position and back, and replace that range. */
  method UpdateLinkInEditor(editor: EditorBuffer, t: HandlerType, url: string, oldLink: string, newLink: string,
                            startPosition: nat, normalize: string -> string)
    modifies editor
    ensures editor.text == Resized(old(editor.text), t, url, oldLink, newLink, startPosition, normalize)
  {
    var content := editor.text;
    var target := LocateResizeTarget(content, t, url, oldLink, startPosition, normalize);
    if target.Some? {
      var m := target.value;
      RewriteOfTarget(content, t, url, oldLink, newLink, startPosition, normalize, m);
      var replacement := Replacement(m, t, oldLink, PartOr(Split(newLink, '|'), 1));
      ghost var rw := ResizeRewrite(content, t, url, oldLink, newLink, startPosition, normalize).value;
      assert rw == Rewrite(m.start, m.start + |m.text|, replacement);
      SourcePosIsEditorPos(content, m.start);
      var start := PosToOffset(content, SourcePos(content, m.start));
      var end := start + |m.text|;
      assert start == rw.start && end == rw.end;
      var from, to := OffsetToPos(content, start), OffsetToPos(content, end);
      editor.ReplaceRange(replacement, from, to);
    }
  }

  /** The characters of `[alt|width](url)` when `alt` holds no `|`. */
  lemma ExternalReplacementChars(alt: string, width: string, url: string)
    requires '|' !in alt
    ensures var r := ExternalReplacement(alt, width, url); var q := 1 + |alt|; var d := q + 1 + |width|;
            && |r| == d + 2 + |url| + 1
            && r[0] == '[' && r[q] == '|' && r[d] == ']' && r[d + 1] == '(' && r[|r| - 1] == ')'
            && r[1..q] == alt && r[q + 1..d] == width && r[d + 2..|r| - 1] == url
  {
    BeforeAbsent(alt, '|');
    var r := ExternalReplacement(alt, width, url);
    var q := 1 + |alt|;
    var d := q + 1 + |width|;
    assert r == "[" + alt + "|" + width + "](" + url + ")";
    assert r[1..q] == alt;
    assert r[q + 1..d] == width;
    assert r[d + 2..|r| - 1] == url;
  }

  /** The resize pattern matches at `i` exactly when `s` holds `[alt|digits](url)` there,
      ending at `e`. */
  lemma SizedMarkdownShape(s: string, i: nat, i1: nat, q: nat, q1: nat, d: nat, d2: nat, c: nat, e: nat)
    requires i1 == i + 1 && q1 == q + 1 && d2 == d + 2 && e == c + 1
    requires i < q && q1 < d && d2 <= c < |s|
    requires s[i] == '[' && s[q] == '|' && s[d] == ']' && s[d + 1] == '(' && s[c] == ')'
    requires forall j :: i < j < q ==> s[j] != ']' && s[j] != '|'
    requires forall j :: q < j < d ==> IsDigit(s[j])
    requires forall j :: d + 2 <= j < c ==> s[j] != ')'
    ensures SizedMarkdownAt(s, i, false)
            == Some(Match(i, e, s[i..e], s[i1..q], s[q1..d], s[d2..c], "", false))
  {
    assert FindEither(s, i1, ']', '|') == q;
    SizedLabelShape(s, i, i1, q, q1, d, d2, c, e);
  }

  lemma SizedLabelShape(s: string, i: nat, i1: nat, q: nat, q1: nat, d: nat, d2: nat, c: nat, e: nat)
    requires i1 == i + 1 && q1 == q + 1 && d2 == d + 2 && e == c + 1
    requires i < q && q1 < d && d2 <= c < |s|
    requires s[q] == '|' && s[d] == ']' && s[d + 1] == '(' && s[c] == ')'
    requires forall j :: q < j < d ==> IsDigit(s[j])
    requires forall j :: d + 2 <= j < c ==> s[j] != ')'
    ensures SizedAfterLabel(s, i, q, false)
            == Some(Match(i, e, s[i..e], s[i1..q], s[q1..d], s[d2..c], "", false))
  {
    assert DigitsEnd(s, q1) == d;
    SizedDigitsShape(s, i, i1, q, q1, d, d2, c, e);
  }

  lemma SizedDigitsShape(s: string, i: nat, i1: nat, q: nat, q1: nat, d: nat, d2: nat, c: nat, e: nat)
    requires i1 == i + 1 && q1 == q + 1 && d2 == d + 2 && e == c + 1
    requires i < q && q1 < d && d2 <= c < |s|
    requires s[d] == ']' && s[d + 1] == '(' && s[c] == ')'
    requires forall j :: d + 2 <= j < c ==> s[j] != ')'
    ensures SizedAfterDigits(s, i, q, d, false)
            == Some(Match(i, e, s[i..e], s[i1..q], s[q1..d], s[d2..c], "", false))
  {
    assert FindChar(s, d2, ')') == c;
  }


  /** The sized wiki pattern matches at `i` exactly when `s` holds `[[path|digits]]` there. */
  lemma SizedWikiShape(s: string, i: nat, path: string, d: nat)
    requires i + |path| + 3 < d && d + 2 <= |s|
    requires OccursAt(s, "[[" + path + "|", i) && OccursAt(s, "]]", d)
    requires forall j :: i + |path| + 3 <= j < d ==> IsDigit(s[j])
    ensures SizedWikiAt(s, i, path) == Some(Match(i, d + 2, s[i..d + 2], "", s[i + |path| + 3..d], path, "", false))
  {
    assert s[d] == s[d..d + 2][0];
    assert DigitsEnd(s, i + |path| + 3) == d;
  }

  /** Scanning for `](` from `from` skips a stretch without `]`. */
  lemma {:induction false} ParenUrlSkip(t: string, from: nat, k: nat)
    requires from <= k <= |t|
    requires forall j :: from <= j < k ==> t[j] != ']'
    ensures ParenUrl(t, from) == ParenUrl(t, k)
    decreases k - from
  {
    if from < k && from + 2 <= |t| {
      assert t[from..from + 2] != "](" by {
        assert t[from..from + 2][0] == t[from];
      }
      ParenUrlSkip(t, from + 1, k);
    }
  }

  /** The url of a rewritten external link reads back unchanged. */
  lemma ExternalReplacementUrl(alt: string, width: string, url: string)
    requires ']' !in alt && '|' !in alt && AllDigits(width)
    requires ')' !in url && forall j :: 0 <= j < |url| ==> !IsLineTerminator(url[j])
    ensures ParenUrl(ExternalReplacement(alt, width, url), 0) == Some(url)
  {
    ExternalReplacementChars(alt, width, url);
    var r := ExternalReplacement(alt, width, url);
    var q := 1 + |alt|;
    var d := q + 1 + |width|;
    assert forall j :: 1 <= j < q ==> r[j] == alt[j - 1];
    assert forall j :: q < j < d ==> r[j] == width[j - q - 1];
    assert forall j :: 0 <= j < d ==> r[j] != ']';
    ParenUrlSkip(r, 0, d);
    assert r[d..d + 2] == "](";
    assert forall j :: d + 2 <= j < |r| - 1 ==> r[j] == url[j - d - 2];
    assert FindChar(r, d + 2, ')') == |r| - 1;
  }

  /** `[alt|width](url)` has the shape the resize pattern looks for. */
  lemma ExternalReplacementShape(alt: string, width: string, url: string)
    requires ']' !in alt && '|' !in alt && |width| >= 1 && AllDigits(width)
    requires ')' !in url
    ensures var r := ExternalReplacement(alt, width, url); var q := 1 + |alt|; var d := q + 1 + |width|;
            && (forall j :: 0 < j < q ==> r[j] != ']' && r[j] != '|')
            && (forall j :: q < j < d ==> IsDigit(r[j]))
            && (forall j :: d + 2 <= j < |r| - 1 ==> r[j] != ')')
  {
    ExternalReplacementChars(alt, width, url);
    var r := ExternalReplacement(alt, width, url);
    var q := 1 + |alt|;
    var d := q + 1 + |width|;
    assert forall j :: 0 < j < q ==> r[j] == alt[j - 1];
    assert forall j :: q < j < d ==> r[j] == width[j - q - 1];
    assert forall j :: d + 2 <= j < |r| - 1 ==> r[j] == url[j - d - 2];
  }

  /** The rewritten external link is matched again, at its start, by the resize pattern,
      with the same alt text and url and the new width. */
  lemma ExternalRewriteRematch(before: string, alt: string, width: string, url: string, after: string)
    requires ']' !in alt && '|' !in alt && |width| >= 1 && AllDigits(width)
    requires ')' !in url
    ensures var r := ExternalReplacement(alt, width, url);
            var m := SizedMarkdownAt(before + r + after, |before|, false);
            && m.Some? && m.value.start == |before| && m.value.end == |before| + |r| && m.value.text == r
            && m.value.alt == alt && m.value.size == width && m.value.target == url
  {
    ExternalReplacementChars(alt, width, url);
    ExternalReplacementShape(alt, width, url);
    var r := ExternalReplacement(alt, width, url);
    var s := before + r + after;
    var i, q, d := |before|, 1 + |alt|, 2 + |alt| + |width|;
    assert s[i..i + |r|] == r;
    SizedMarkdownIn(s, i, r, q, d);
    assert r[1..q] == alt && r[q + 1..d] == width && r[d + 2..|r| - 1] == url;
  }

  /** The resize pattern matches at `i` when the text there is a link `r` of the
      shape `[alt|digits](url)`. */
  lemma SizedMarkdownIn(s: string, i: nat, r: string, q: nat, d: nat)
    requires i + |r| <= |s| && s[i..i + |r|] == r
    requires 0 < q && q + 1 < d && d + 3 <= |r|
    requires r[0] == '[' && r[q] == '|' && r[d] == ']' && r[d + 1] == '(' && r[|r| - 1] == ')'
    requires forall j :: 0 < j < q ==> r[j] != ']' && r[j] != '|'
    requires forall j :: q < j < d ==> IsDigit(r[j])
    requires forall j :: d + 2 <= j < |r| - 1 ==> r[j] != ')'
    ensures var m := SizedMarkdownAt(s, i, false);
            && m.Some? && m.value.start == i && m.value.end == i + |r| && m.value.text == r
            && m.value.alt == r[1..q] && m.value.size == r[q + 1..d] && m.value.target == r[d + 2..|r| - 1]
  {
    var i1, iq, id, ic, e := i + 1, i + q, i + d, i + |r| - 1, i + |r|;
    var iq1, id2 := iq + 1, id + 2;
    SizedMarkdownCopy(s, i, r, q, d, i1, iq, iq1, id, id2, ic, e);
    SlicesOfCopy(s, i, r, q, d, i1, iq, iq1, id, id2, ic);
    SizedMarkdownFields(s, i, r, q, d, i1, iq, iq1, id, id2, ic, e);
  }

  lemma SizedMarkdownFields(s: string, i: nat, r: string, q: nat, d: nat,
                            i1: nat, iq: nat, iq1: nat, id: nat, id2: nat, ic: nat, e: nat)
    requires i + |r| <= |s| && s[i..i + |r|] == r && 0 < q && q + 1 < d && d + 3 <= |r|
    requires i1 == i + 1 && iq == i + q && iq1 == iq + 1 && id == i + d && id2 == id + 2 && ic == i + |r| - 1 && e == i + |r|
    requires SizedMarkdownAt(s, i, false) == Some(Match(i, e, s[i..e], s[i1..iq], s[iq1..id], s[id2..ic], "", false))
    requires s[i1..iq] == r[1..q] && s[iq1..id] == r[q + 1..d] && s[id2..ic] == r[d + 2..|r| - 1]
    ensures var m := SizedMarkdownAt(s, i, false);
            && m.Some? && m.value.start == i && m.value.end == i + |r| && m.value.text == r
            && m.value.alt == r[1..q] && m.value.size == r[q + 1..d] && m.value.target == r[d + 2..|r| - 1]
  {
  }

  lemma SlicesOfCopy(s: string, i: nat, r: string, q: nat, d: nat,
                     i1: nat, iq: nat, iq1: nat, id: nat, id2: nat, ic: nat)
    requires i + |r| <= |s| && s[i..i + |r|] == r && 0 < q && q + 1 < d && d + 3 <= |r|
    requires i1 == i + 1 && iq == i + q && iq1 == iq + 1 && id == i + d && id2 == id + 2 && ic == i + |r| - 1
    ensures s[i1..iq] == r[1..q] && s[iq1..id] == r[q + 1..d] && s[id2..ic] == r[d + 2..|r| - 1]
  {
    SliceOfSlice(s, i, |r|, 1, q, i1, iq);
    SliceOfSlice(s, i, |r|, q + 1, d, iq1, id);
    SliceOfSlice(s, i, |r|, d + 2, |r| - 1, id2, ic);
  }

  lemma SizedMarkdownCopy(s: string, i: nat, r: string, q: nat, d: nat,
                          i1: nat, iq: nat, iq1: nat, id: nat, id2: nat, ic: nat, e: nat)
    requires i + |r| <= |s| && s[i..i + |r|] == r
    requires 0 < q && q + 1 < d && d + 3 <= |r|
    requires r[0] == '[' && r[q] == '|' && r[d] == ']' && r[d + 1] == '(' && r[|r| - 1] == ')'
    requires forall j :: 0 < j < q ==> r[j] != ']' && r[j] != '|'
    requires forall j :: q < j < d ==> IsDigit(r[j])
    requires forall j :: d + 2 <= j < |r| - 1 ==> r[j] != ')'
    requires i1 == i + 1 && iq == i + q && iq1 == iq + 1 && id == i + d && id2 == id + 2 && ic == i + |r| - 1 && e == i + |r|
    ensures SizedMarkdownAt(s, i, false)
            == Some(Match(i, e, s[i..e], s[i1..iq], s[iq1..id], s[id2..ic], "", false))
  {
    CopiedMarks(s, i, r, q, d, iq, id, ic);
    CopiedLabel(s, i, r, q, iq);
    CopiedDigits(s, i, r, q, d, iq, id);
    CopiedUrl(s, i, r, d, id, ic);
    SizedMarkdownShape(s, i, i1, iq, iq1, id, id2, ic, e);
  }

  lemma CopiedMarks(s: string, i: nat, r: string, q: nat, d: nat, iq: nat, id: nat, ic: nat)
    requires i + |r| <= |s| && s[i..i + |r|] == r && 0 < q && q + 1 < d && d + 3 <= |r|
    requires r[0] == '[' && r[q] == '|' && r[d] == ']' && r[d + 1] == '(' && r[|r| - 1] == ')'
    requires iq == i + q && id == i + d && ic == i + |r| - 1
    ensures s[i] == '[' && s[iq] == '|' && s[id] == ']' && s[id + 1] == '(' && s[ic] == ')'
  {
    var id1 := id + 1;
    CopyChar(s, i, r, 0, i);
    CopyChar(s, i, r, q, iq);
    CopyChar(s, i, r, d, id);
    CopyChar(s, i, r, d + 1, id1);
    CopyChar(s, i, r, |r| - 1, ic);
  }

  lemma CopiedLabel(s: string, i: nat, r: string, q: nat, iq: nat)
    requires i + |r| <= |s| && s[i..i + |r|] == r && q < |r| && iq == i + q
    requires forall j :: 0 < j < q ==> r[j] != ']' && r[j] != '|'
    ensures forall j :: i < j < iq ==> s[j] != ']' && s[j] != '|'
  {
    forall j | i < j < iq ensures s[j] != ']' && s[j] != '|' {
      CopyChar(s, i, r, j - i, j);
    }
  }

  lemma CopiedDigits(s: string, i: nat, r: string, q: nat, d: nat, iq: nat, id: nat)
    requires i + |r| <= |s| && s[i..i + |r|] == r && q < d < |r| && iq == i + q && id == i + d
    requires forall j :: q < j < d ==> IsDigit(r[j])
    ensures forall j :: iq < j < id ==> IsDigit(s[j])
  {
    forall j | iq < j < id ensures IsDigit(s[j]) {
      CopyChar(s, i, r, j - i, j);
    }
  }

  lemma CopiedUrl(s: string, i: nat, r: string, d: nat, id: nat, ic: nat)
    requires i + |r| <= |s| && s[i..i + |r|] == r && d + 3 <= |r| && id == i + d && ic == i + |r| - 1
    requires forall j :: d + 2 <= j < |r| - 1 ==> r[j] != ')'
    ensures forall j :: id + 2 <= j < ic ==> s[j] != ')'
  {
    forall j | id + 2 <= j < ic ensures s[j] != ')' {
      CopyChar(s, i, r, j - i, j);
    }
  }


  /** The rewritten wiki link is matched again, at its start, by the sized wiki pattern
      with the new width. */
  lemma WikiRewriteRematch(before: string, path: string, width: string, after: string)
    requires |width| >= 1 && AllDigits(width)
    ensures var r := WikiReplacement(path, width);
            SizedWikiAt(before + r + after, |before|, path)
            == Some(Match(|before|, |before| + |r|, r, "", width, path, "", false))
  {
    var s := before + WikiReplacement(path, width) + after;
    var i := |before|;
    var d := i + |path| + 3 + |width|;
    WikiRewritePieces(before, path, width, after, s, i, d);
    SizedWikiShape(s, i, path, d);
  }

  /** Where the pieces of a written wiki link lie in the text around it. */
  lemma WikiRewritePieces(before: string, path: string, width: string, after: string, s: string, i: nat, d: nat)
    requires |width| >= 1 && AllDigits(width)
    requires s == before + WikiReplacement(path, width) + after && i == |before| && d == i + |path| + 3 + |width|
    ensures i + |path| + 3 < d && d + 2 <= |s| && d + 2 == i + |WikiReplacement(path, width)|
    ensures OccursAt(s, "[[" + path + "|", i) && OccursAt(s, "]]", d)
    ensures forall j :: i + |path| + 3 <= j < d ==> IsDigit(s[j])
    ensures s[i..d + 2] == WikiReplacement(path, width) && s[i + |path| + 3..d] == width
  {
    var r := WikiReplacement(path, width);
    var d0 := |path| + 3;
    var e := d0 + |width|;
    assert r == ("[[" + path + "|") + width + "]]";
    assert s[i..i + |r|] == r;
    assert r[..d0] == "[[" + path + "|" && r[d0..e] == width && r[e..] == "]]";
    assert s[i..i + d0] == r[..d0];
    assert s[d..d + 2] == r[e..];
    assert s[i + d0..d] == r[d0..e];
    assert forall j :: i + d0 <= j < d ==> s[j] == width[j - i - d0];
  }

  /** After the slider writes width `w`, the span it rewrote holds a link the same
      search reads back at the same place with size `w` (and, for external images, the
      same url), and rewriting that link with `w` again leaves the text as it is. */
  lemma ResizeRereads(content: string, t: HandlerType, url: string, oldLink: string, w: nat,
                      startPosition: nat, normalize: string -> string)
    requires ResizeRewrite(content, t, url, oldLink, UpdateImageUrl(t, url, oldLink, w), startPosition, normalize).Some?
    ensures var newLink := UpdateImageUrl(t, url, oldLink, w);
            var rw := ResizeRewrite(content, t, url, oldLink, newLink, startPosition, normalize).value;
            var s := Resized(content, t, url, oldLink, newLink, startPosition, normalize);
            && rw.start < |s|
            && (t != LocalImage ==>
                  var m := SizedMarkdownAt(s, rw.start, false);
                  && m.Some? && m.value.text == rw.replacement && m.value.size == NatToString(w)
                  && SameUrl(m.value, ImagePath.CleanPath(url), normalize)
                  && ExternalReplacement(m.value.alt, NatToString(w), ParenUrl(m.value.text, 0).value) == rw.replacement)
            && (t == LocalImage ==>
                  var m := SizedWikiAt(s, rw.start, ImagePath.CleanPath(oldLink));
                  && m.Some? && m.value.text == rw.replacement && m.value.size == NatToString(w)
                  && WikiReplacement(ImagePath.CleanPath(oldLink), m.value.size) == rw.replacement)
  {
    var newLink := UpdateImageUrl(t, url, oldLink, w);
    var width := NatToString(w);
    UpdateImageUrlParts(t, url, oldLink, w);
    var m := ResizeTarget(content, t, url, oldLink, startPosition, normalize).value;
    RewriteOfTarget(content, t, url, oldLink, newLink, startPosition, normalize, m);
    var rw := ResizeRewrite(content, t, url, oldLink, newLink, startPosition, normalize).value;
    var before, after := content[..rw.start], content[rw.end..];
    assert Resized(content, t, url, oldLink, newLink, startPosition, normalize) == before + rw.replacement + after;
    if t != LocalImage {
      var u := ParenUrl(m.text, 0).value;
      assert SizedMarkdownAt(content, m.start, false) == Some(m) by {
        FoundLinkAt(SizedMarkdown, content, m);
      }
      ExternalRewriteRematch(before, m.alt, width, u, after);
      ExternalReplacementUrl(m.alt, width, u);
      BeforeAbsent(m.alt, '|');
    } else {
      WikiRewriteRematch(before, ImagePath.CleanPath(oldLink), width, after);
    }
  }

  // ----- loadSavedSize -----

  /** Scanning for `|digits]` from `from` skips a stretch without `|`. */
  lemma {:induction false} SizeTokenSkip(t: string, from: nat, k: nat)
    requires from <= k <= |t|
    requires forall j :: from <= j < k ==> t[j] != '|'
    ensures SizeToken(t, from) == SizeToken(t, k)
    decreases k - from
  {
    if from < k {
      SizeTokenSkip(t, from + 1, k);
    }
  }

  /** The size the loader reads back from a rewritten external link is the width that
      was written into it. */
  lemma ExternalReplacementSize(alt: string, width: string, url: string)
    requires ']' !in alt && '|' !in alt && |width| >= 1 && AllDigits(width)
    ensures SizeToken(ExternalReplacement(alt, width, url), 0) == Some(width)
  {
    ExternalReplacementChars(alt, width, url);
    var r := ExternalReplacement(alt, width, url);
    var q := 1 + |alt|;
    var d := q + 1 + |width|;
    assert forall j :: 0 < j < q ==> r[j] == alt[j - 1];
    assert forall j :: q < j < d ==> r[j] == width[j - q - 1];
    SizeTokenSkip(r, 0, q);
    assert DigitsEnd(r, q + 1) == d;
  }

  /** The size `loadSavedSize` finds, if any: for an `http` link, the `|digits]` of the
      nearest sized markdown link with the same normalised url; otherwise the size of the
      first `[[path|digits]]` link (`content.match` without the `g` flag).  `content` is
      `None` when no markdown editor is active. */
  function SavedSize(originalUrl: string, content: Option<string>, startPosition: nat,
                     normalize: string -> string): (r: Option<string>)
    ensures r.Some? ==> |r.value| >= 1 && AllDigits(r.value)
    ensures content.None? ==> r.None?
  {
    if content.None? then None
    else if StartsWith(originalUrl, "http") then
      var best := NearestMatch(Kept(AllMatches(SizedMarkdown, content.value), UrlKeep(Before(originalUrl, '|'), normalize)), startPosition);
      if best.None? then None else SizeToken(best.value.text, 0)
    else
      var m := NextMatch(SizedWiki(Before(originalUrl, '|')), content.value, 0);
      if m.None? then None else Some(m.value.size)
  }

  /** `loadSavedSize`: the slider position for the size found, or the default one. */
  function SavedPosition(originalUrl: string, content: Option<string>, startPosition: nat,
                         normalize: string -> string, setting: Option<string>): (p: nat)
    ensures 1 <= p <= 5
    ensures SavedSize(originalUrl, content, startPosition, normalize).None? ==> p == DefaultPosition(setting)
  {
    var size := SavedSize(originalUrl, content, startPosition, normalize);
    if size.Some? then PositionFor(ParseDigits(size.value)) else DefaultPosition(setting)
  }

  method LoadSavedSize(originalUrl: string, content: Option<string>, startPosition: nat,
                       normalize: string -> string, setting: Option<string>) returns (position: nat)
    ensures position == SavedPosition(originalUrl, content, startPosition, normalize, setting)
  {
    var size: Option<string> := None;
    if content.Some? {
      var base := Before(originalUrl, '|');
      if StartsWith(originalUrl, "http") {
        var keep := UrlKeep(base, normalize);
        var ms := AllMatches(SizedMarkdown, content.value);
        var best := NearestKept(ms, keep, startPosition, [], None);
        assert [] + Kept(ms, keep) == Kept(ms, keep);
        if best.Some? {
          size := SizeToken(best.value.text, 0);
        }
      } else {
        var m := NextMatch(SizedWiki(base), content.value, 0);
        if m.Some? {
          size := Some(m.value.size);
        }
      }
    }
    assert size == SavedSize(originalUrl, content, startPosition, normalize);
    if size.Some? {
      position := PositionForWidth(ParseDigits(size.value));
    } else {
      position := DefaultPosition(setting);
    }
  }

  /** Slider to link and back, for an external image: when the nearest link with the
      widget's url is one the slider wrote at position `p`, the widget loads at `p`. */
  lemma LoadAfterExternalResize(originalUrl: string, content: string, startPosition: nat,
                                normalize: string -> string, setting: Option<string>,
                                alt: string, url: string, p: nat)
    requires 1 <= p <= 5 && StartsWith(originalUrl, "http")
    requires ']' !in alt && '|' !in alt
    requires var best := NearestMatch(Kept(AllMatches(SizedMarkdown, content), UrlKeep(Before(originalUrl, '|'), normalize)), startPosition);
             best.Some? && best.value.text == ExternalReplacement(alt, NatToString(SizePixels(p)), url)
    ensures SavedPosition(originalUrl, Some(content), startPosition, normalize, setting) == p
  {
    var width := NatToString(SizePixels(p));
    ExternalReplacementSize(alt, width, url);
    ParseNatToString(SizePixels(p));
    PositionOfPixels(p);
  }

  /** Slider to link and back, for a local image: when the first `[[path|digits]]` link
      in the text is one the slider wrote at position `p`, the widget loads at `p`. */
  lemma LoadAfterWikiResize(originalUrl: string, content: string, before: string, after: string,
                            startPosition: nat, normalize: string -> string, setting: Option<string>, p: nat)
    requires 1 <= p <= 5 && !StartsWith(originalUrl, "http")
    requires content == before + WikiReplacement(Before(originalUrl, '|'), NatToString(SizePixels(p))) + after
    requires forall k :: 0 <= k < |before| ==> MatchAt(SizedWiki(Before(originalUrl, '|')), content, k).None?
    ensures SavedPosition(originalUrl, Some(content), startPosition, normalize, setting) == p
  {
    var path := Before(originalUrl, '|');
    var width := NatToString(SizePixels(p));
    WikiRewriteRematch(before, path, width, after);
    assert MatchAt(SizedWiki(path), content, |before|).Some?;
    NextMatchAt(SizedWiki(path), content, 0, |before|);
    ParseNatToString(SizePixels(p));
    PositionOfPixels(p);
  }

  // ----- the delete button -----

  /** The file name the delete handler looks for: for an `app://` url the last segment of
      its decoded pathname, without a query; otherwise the url itself.  `pathname` stands
      for `decodeURIComponent(new URL(url).pathname)`. */
  function DeleteFileName(url: string, pathname: string -> string): (r: string)
    ensures !StartsWith(url, "app://") ==> r == url
    ensures StartsWith(url, "app://") ==> '/' !in r && '?' !in r
  {
    if StartsWith(url, "app://") then
      AfterLastIsSuffix(pathname(url), '/');
      Before(AfterLast(pathname(url), '/'), '?')
    else url
  }

  /** `match[0].includes(fileName)`. */
  function ContainsKeep(fileName: string): Match -> bool
  {
    (m: Match) => Contains(m.text, fileName)
  }

  /** The matches the delete loop considers, pattern after pattern, in scan order. */
  function DeleteCandidates(ps: seq<Pattern>, content: string, fileName: string): seq<Match>
  {
    if |ps| == 0 then []
    else DeleteCandidates(ps[..|ps| - 1], content, fileName) + Kept(AllMatches(ps[|ps| - 1], content), ContainsKeep(fileName))
  }

  /** Every candidate is a match of one of the patterns that names the file. */
  lemma {:induction false} CandidatesAreMatches(ps: seq<Pattern>, content: string, fileName: string)
    ensures forall c :: c in DeleteCandidates(ps, content, fileName) ==>
              Contains(c.text, fileName) && exists p :: p in ps && c in AllMatches(p, content)
    decreases |ps|
  {
    if |ps| > 0 {
      var init := ps[..|ps| - 1];
      var p := ps[|ps| - 1];
      CandidatesAreMatches(init, content, fileName);
      forall c | c in DeleteCandidates(ps, content, fileName)
        ensures Contains(c.text, fileName) && exists p :: p in ps && c in AllMatches(p, content)
      {
        if c in DeleteCandidates(init, content, fileName) {
          var q :| q in init && c in AllMatches(q, content);
          assert q in ps;
        } else {
          assert c in Kept(AllMatches(p, content), ContainsKeep(fileName));
          assert p in ps;
        }
      }
    }
  }

  /** A match is the text of `s` it spans. */
  predicate Spans(m: Match, s: string)
  {
    m.start + |m.text| <= |s| && m.text == s[m.start..m.start + |m.text|]
  }

  /** Every candidate is the text it spans. */
  lemma {:induction false} CandidatesSpan(ps: seq<Pattern>, content: string, fileName: string)
    ensures forall c :: c in DeleteCandidates(ps, content, fileName) ==> Spans(c, content)
    decreases |ps|
  {
    if |ps| > 0 {
      CandidatesSpan(ps[..|ps| - 1], content, fileName);
      AllMatchesSpans(ps[|ps| - 1], content);
    }
  }

  /** The nearest of candidates that all span their text spans its text. */
  lemma NearestSpans(cs: seq<Match>, target: nat, content: string)
    requires forall c :: c in cs ==> Spans(c, content)
    ensures NearestMatch(cs, target).Some? ==> Spans(NearestMatch(cs, target).value, content)
  {
  }

  lemma CandidatesStep(ps: seq<Pattern>, i: nat, content: string, fileName: string)
    requires i < |ps|
    ensures DeleteCandidates(ps[..i + 1], content, fileName)
            == DeleteCandidates(ps[..i], content, fileName) + Kept(AllMatches(ps[i], content), ContainsKeep(fileName))
  {
    assert ps[..i + 1][..i] == ps[..i];
  }

  /** Every match the scan returns is the text it spans. */
  lemma AllMatchesSpans(p: Pattern, s: string)
    ensures forall m :: m in AllMatches(p, s) ==> Spans(m, s)
  {
    forall m | m in AllMatches(p, s)
      ensures Spans(m, s)
    {
      FoundLinkAt(p, s, m);
    }
  }

  /** The three `getImagePatterns` shapes for the file name, in the handler's order. */
  function DeletePatterns(url: string, pathname: string -> string, decode: string -> string): seq<Pattern>
  {
    FileNames.PatternList(FileNames.GetImagePatterns(DeleteFileName(url, pathname), decode))
  }

  /** The link the "Supprimer" handler removes: a match of one of the three
      `getImagePatterns` shapes that contains the file name, with no such match nearer to
      the widget; there is none only when no pattern match names the file. */
  function DeleteTarget(content: string, url: string, startPosition: nat,
                        pathname: string -> string, decode: string -> string): (r: Option<Match>)
    ensures r.Some? ==> Spans(r.value, content)
  {
    var ps := DeletePatterns(url, pathname, decode);
    var fileName := DeleteFileName(url, pathname);
    var cs := DeleteCandidates(ps, content, fileName);
    CandidatesSpan(ps, content, fileName);
    NearestSpans(cs, startPosition, content);
    NearestMatch(cs, startPosition)
  }

  /** The chosen link is a match of one of the patterns that names the file, and no
      such match is nearer to the widget; there is none only when no match names it. */
  lemma DeleteTargetIsNearest(content: string, url: string, startPosition: nat,
                              pathname: string -> string, decode: string -> string)
    ensures var cs := DeleteCandidates(DeletePatterns(url, pathname, decode), content, DeleteFileName(url, pathname));
            var r := DeleteTarget(content, url, startPosition, pathname, decode);
            && (r.None? <==> |cs| == 0)
            && (r.Some? ==>
                  && (exists p :: p in DeletePatterns(url, pathname, decode) && r.value in AllMatches(p, content))
                  && Contains(r.value.text, DeleteFileName(url, pathname))
                  && (forall c :: c in cs ==> Dist(r.value.start, startPosition) <= Dist(c.start, startPosition)))
  {
    var cs := DeleteCandidates(DeletePatterns(url, pathname, decode), content, DeleteFileName(url, pathname));
    CandidatesAreMatches(DeletePatterns(url, pathname, decode), content, DeleteFileName(url, pathname));
    NearestMatchIsNearest(cs, startPosition);
  }

  /** The document after the handler: the chosen link cut out, or the document as it
      was when no link is chosen. */
  function Deleted(content: string, url: string, startPosition: nat,
                   pathname: string -> string, decode: string -> string): string
  {
    var m := DeleteTarget(content, url, startPosition, pathname, decode);
    if m.None? then content else CutLink(content, m.value)
  }

  /** `content.substring(0, index) + content.substring(index + match[0].length)`. */
  function CutLink(content: string, m: Match): (r: string)
    requires m.start + |m.text| <= |content|
    ensures |r| == |content| - |m.text|
    ensures r[..m.start] == content[..m.start] && r[m.start..] == content[m.start + |m.text|..]
  {
    content[..m.start] + content[m.start + |m.text|..]
  }

  /** The "Supprimer" handler's search: a `matchAll` loop per pattern, keeping the
      nearest match that contains the file name across all three. */
  method FindDeleteTarget(content: string, url: string, startPosition: nat,
                          pathname: string -> string, decode: string -> string) returns (best: Option<Match>)
    ensures best == DeleteTarget(content, url, startPosition, pathname, decode)
  {
    var fileName := DeleteFileName(url, pathname);
    var ps := DeletePatterns(url, pathname, decode);
    var keep := ContainsKeep(fileName);
    best := None;
    var cands: seq<Match> := [];
    for i := 0 to |ps|
      invariant cands == DeleteCandidates(ps[..i], content, fileName)
      invariant best == NearestMatch(cands, startPosition)
    {
      var ms := AllMatches(ps[i], content);
      best := NearestKept(ms, keep, startPosition, cands, best);
      cands := cands + Kept(ms, keep);
      CandidatesStep(ps, i, content, fileName);
    }
    assert ps[..|ps|] == ps;
  }

  /** The "Supprimer" handler's edit (after the file deletion, whose outcome only
      chooses the notice): `setValue(before + after)` around the chosen link. */
  method DeleteImageLink(editor: EditorBuffer, url: string, startPosition: nat,
                         pathname: string -> string, decode: string -> string) returns (linkRemoved: bool)
    modifies editor
    ensures linkRemoved <==> DeleteTarget(old(editor.text), url, startPosition, pathname, decode).Some?
    ensures editor.text == Deleted(old(editor.text), url, startPosition, pathname, decode)
  {
    var content := editor.text;
    var best := FindDeleteTarget(content, url, startPosition, pathname, decode);
    linkRemoved := best.Some?;
    if best.Some? {
      editor.SetValue(CutLink(content, best.value));
    }
  }

  // ----- the slider -----

  /** What the slider's single `debounceTimeout` is waiting to run: a deferred
      `updateSize(position)` (from `input`) or a deferred `updateLinkInEditor`. */
  datatype Timer = NoTimer | SizeTimer(position: nat) | LinkTimer(oldLink: string, newLink: string)

  /** The slider's handlers and the `lastWidth`, `isDragging` and `debounceTimeout`
      they share.  `displayed` is the image element's style width. */
  class SizeSlider {
    const handler: HandlerType
    const url: string
    const originalUrl: string
    var lastWidth: Option<nat>
    var dragging: bool
    var timer: Timer
    var displayed: nat

    /** A pending `input` timer holds a slider position, and a pending link update
        writes the width last applied, and differs from the link it replaces. */
    ghost predicate Valid()
      reads this
    {
      && (timer.SizeTimer? ==> 1 <= timer.position <= 5)
      && (timer.LinkTimer? ==>
            && lastWidth.Some?
            && timer.oldLink == originalUrl
            && timer.newLink == UpdateImageUrl(handler, url, originalUrl, lastWidth.value)
            && timer.newLink != originalUrl)
    }

    /** The slider starts at the saved position, with the image drawn at its width. */
    constructor(handler: HandlerType, url: string, originalUrl: string, saved: nat)
      requires 1 <= saved <= 5
      ensures Valid()
      ensures this.handler == handler && this.url == url && this.originalUrl == originalUrl
      ensures lastWidth == None && !dragging && timer == NoTimer && displayed == SizePixels(saved)
    {
      this.handler := handler;
      this.url := url;
      this.originalUrl := originalUrl;
      lastWidth := None;
      dragging := false;
      timer := NoTimer;
      displayed := SizePixels(saved);
    }

    /** The link update `updateSize` schedules for width `w`: none when the rewritten
        link is the original one. */
    function LinkUpdate(w: nat): (r: Timer)
      ensures r.LinkTimer? <==> UpdateImageUrl(handler, url, originalUrl, w) != originalUrl
      ensures r.LinkTimer? ==> r.oldLink == originalUrl && r.newLink == UpdateImageUrl(handler, url, originalUrl, w)
      ensures r.NoTimer? || r.LinkTimer?
    {
      var newLink := UpdateImageUrl(handler, url, originalUrl, w);
      if newLink != originalUrl then LinkTimer(originalUrl, newLink) else NoTimer
    }

    /** `updateSize(value)`: only a width different from the last one applied is drawn,
        and it schedules a link update when the rewritten link differs from the original. */
    method UpdateSize(p: nat)
      requires Valid() && timer == NoTimer && 1 <= p <= 5
      modifies this
      ensures Valid() && dragging == old(dragging)
      ensures var w := SizePixels(p);
              if old(lastWidth) == Some(w) then
                lastWidth == old(lastWidth) && timer == NoTimer && displayed == old(displayed)
              else lastWidth == Some(w) && displayed == w && timer == LinkUpdate(w)
    {
      var width := SizePixels(p);
      if lastWidth != Some(width) {
        lastWidth := Some(width);
        displayed := width;
        var newLink := UpdateImageUrl(handler, url, originalUrl, width);
        if newLink != originalUrl {
          timer := LinkTimer(originalUrl, newLink);
        }
      }
    }

    /** `mousedown`. */
    method MouseDown()
      requires Valid()
      modifies this
      ensures Valid() && dragging
      ensures lastWidth == old(lastWidth) && timer == old(timer) && displayed == old(displayed)
    {
      dragging := true;
    }

    /** `mouseup`: cancel the pending timer and apply the position at once. */
    method MouseUp(p: nat)
      requires Valid() && 1 <= p <= 5
      modifies this
      ensures Valid() && !dragging
      ensures var w := SizePixels(p);
              if old(lastWidth) == Some(w) then
                lastWidth == old(lastWidth) && timer == NoTimer && displayed == old(displayed)
              else lastWidth == Some(w) && displayed == w && timer == LinkUpdate(w)
    {
      dragging := false;
      timer := NoTimer;
      UpdateSize(p);
    }

    /** `mouseleave`: like `mouseup`, but only while dragging. */
    method MouseLeave(p: nat)
      requires Valid() && 1 <= p <= 5
      modifies this
      ensures Valid() && !dragging
      ensures !old(dragging) ==> lastWidth == old(lastWidth) && timer == old(timer) && displayed == old(displayed)
      ensures var w := SizePixels(p);
              old(dragging) ==>
                if old(lastWidth) == Some(w) then
                  lastWidth == old(lastWidth) && timer == NoTimer && displayed == old(displayed)
                else lastWidth == Some(w) && displayed == w && timer == LinkUpdate(w)
    {
      if dragging {
        dragging := false;
        timer := NoTimer;
        UpdateSize(p);
      }
    }

    /** `input`: draw the new width at once and defer `updateSize`, replacing whatever
        was pending. */
    method Input(p: nat)
      requires Valid() && 1 <= p <= 5
      modifies this
      ensures Valid()
      ensures displayed == SizePixels(p) && timer == SizeTimer(p)
      ensures lastWidth == old(lastWidth) && dragging == old(dragging)
    {
      displayed := SizePixels(p);
      timer := SizeTimer(p);
    }

    /** The pending timer fires: a deferred `updateSize` runs, or the link is rewritten in
        the editor with the width last applied. */
    method Fire(editor: EditorBuffer, startPosition: nat, normalize: string -> string)
      requires Valid()
      modifies this, editor
      ensures Valid() && dragging == old(dragging)
      ensures old(timer).NoTimer? ==> timer == NoTimer && editor.text == old(editor.text)
      ensures old(timer).LinkTimer? ==>
                && timer == NoTimer
                && editor.text == Resized(old(editor.text), handler, url, originalUrl,
                                          UpdateImageUrl(handler, url, originalUrl, old(lastWidth).value),
                                          startPosition, normalize)
      ensures old(timer).SizeTimer? ==>
                && editor.text == old(editor.text)
                && var w := SizePixels(old(timer).position);
                   if old(lastWidth) == Some(w) then
                     lastWidth == old(lastWidth) && timer == NoTimer && displayed == old(displayed)
                   else lastWidth == Some(w) && displayed == w && timer == LinkUpdate(w)
      ensures !old(timer).SizeTimer? ==> lastWidth == old(lastWidth) && displayed == old(displayed)
    {
      match timer
      case NoTimer =>
      case SizeTimer(p) =>
        timer := NoTimer;
        UpdateSize(p);
      case LinkTimer(oldLink, newLink) =>
        timer := NoTimer;
        UpdateLinkInEditor(editor, handler, url, oldLink, newLink, startPosition, normalize);
    }
  }
}
