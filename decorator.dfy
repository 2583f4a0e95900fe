// MediaToolbarDecorator: the editor extension that places an image toolbar
// widget after every markdown or wiki image link.  Each line is scanned for
// markdown links, then for wiki links; a match that starts before the end of
// the last accepted link is skipped, so accepted links never overlap.

module Decorator {
  import opened Common
  import opened Text
  import opened Patterns
  import opened Scan
  import opened Media
  import ImagePath

  /** The vault lookups `getFullPath` relies on (see `ImagePath.GetFullPath`). */
  datatype Vault = Vault(linkDest: string -> Option<string>, byPath: string -> Option<string>, activeFile: Option<string>)

  function Resolve(url: string, vault: Vault): string
  {
    ImagePath.GetFullPath(url, vault.linkDest, vault.byPath, vault.activeFile)
  }

  /** A widget decoration: added at `pos` (`builder.add(end, end, …)`) for the link
      that starts at `start`.  The widget keeps the match it was built from; the
      `MediaLinkInfo` it displays is `Info` of it. */
  datatype Widget = Widget(pos: nat, start: nat, link: Match, wiki: bool)

  /** The builder's content so far and `lastPos`. */
  datatype State = State(widgets: seq<Widget>, lastPos: nat)

  datatype Effect = MediaTransform(value: bool) | OtherEffect

  /** The parts of a `ViewUpdate` the decorator reads. */
  datatype ViewUpdate = ViewUpdate(docChanged: bool, transactions: seq<seq<Effect>>)

  /** `shouldProcessUpdate`: the document changed and no transaction carries the
      `mediaTransform` effect. */
  predicate ShouldProcessUpdate(u: ViewUpdate)
  {
    u.docChanged && !exists t, e :: t in u.transactions && e in t && e.MediaTransform?
  }

  /** `detectLinkType`. */
  function DetectLinkType(url: string): (r: MediaLinkType)
    ensures ImagePath.IsUrl(url) ==> r == HostType(url)
    ensures !ImagePath.IsUrl(url) ==> (r == Wiki <==> Contains(url, "[[")) && (r == Local <==> !Contains(url, "[["))
  {
    if ImagePath.IsUrl(url) then HostType(url)
    else if Contains(url, "[[") then Wiki
    else Local
  }

  /** The widget record of a markdown match: `originalUrl` is `url|size` when a size
      was given, the resolved URL comes from `getFullPath`. */
  function MarkdownInfo(m: Match, vault: Vault): (r: MediaLinkInfo)
    ensures r.altText == m.alt
    ensures m.size != "" ==> r.originalUrl == m.target + "|" + m.size
    ensures m.size == "" ==> r.originalUrl == m.target
  {
    var fullUrl := if m.size != "" then m.target + "|" + m.size else m.target;
    MediaLinkInfo(fullUrl, Resolve(m.target, vault), DetectLinkType(m.target), m.alt)
  }

  /** The widget record of a wiki match: the inner text split on `|` gives the target
      and the alt text (`''` when absent). */
  function WikiInfo(m: Match, vault: Vault): (r: MediaLinkInfo)
    ensures '|' !in r.originalUrl && StartsWith(m.target, r.originalUrl)
    ensures '|' in m.target ==> |r.originalUrl| < |m.target| && m.target[|r.originalUrl|] == '|'
  {
    var parts := Split(m.target, '|');
    MediaLinkInfo(parts[0], Resolve(parts[0], vault), DetectLinkType(parts[0]), PartOr(parts, 1))
  }

  /** The alt text of a wiki link `target|alt` is the text between the first and the
      second `|`. */
  lemma WikiInfoParts(m: Match, vault: Vault, target: string, alt: string)
    requires '|' !in target && '|' !in alt && m.target == target + "|" + alt
    ensures WikiInfo(m, vault).originalUrl == target && WikiInfo(m, vault).altText == alt
  {
    var s := m.target;
    assert s[|target|] == '|';
    assert FindChar(s, 0, '|') == |target|;
    assert s[|target| + 1..] == alt;
    assert Split(alt, '|') == [alt];
  }

  /** One iteration of a scanning loop: skip the link when it starts before `lastPos`,
      otherwise add its widget at its end and move `lastPos` there. */
  function Accept(st: State, start: nat, end: nat, m: Match, wiki: bool): State
  {
    if start < st.lastPos then st else State(st.widgets + [Widget(end, start, m, wiki)], end)
  }

  /** The link record a widget displays. */
  function Info(w: Widget, vault: Vault): MediaLinkInfo
  {
    if w.wiki then WikiInfo(w.link, vault) else MarkdownInfo(w.link, vault)
  }

  /** The `while (regex.exec(text))` loop over the matches `ms` of one line starting at
      document offset `from`. */
  function ScanMatches(st: State, ms: seq<Match>, from: nat, wiki: bool): State
    decreases |ms|
  {
    if |ms| == 0 then st
    else ScanMatches(Accept(st, from + ms[0].start, from + ms[0].start + |ms[0].text|, ms[0], wiki),
                     ms[1..], from, wiki)
  }

  /** One line: its markdown links, then its wiki links. */
  function ScanLine(st: State, text: string, from: nat): State
  {
    var afterMarkdown := ScanMatches(st, AllMatches(DecoratorMarkdown, text), from, false);
    ScanMatches(afterMarkdown, AllMatches(DecoratorWiki, text), from, true)
  }

  /** The lines from `from` on; the next line starts after the line break. */
  function ScanLines(st: State, lines: seq<string>, from: nat): State
    decreases |lines|
  {
    if |lines| == 0 then st
    else ScanLines(ScanLine(st, lines[0], from), lines[1..], from + |lines[0]| + 1)
  }

  lemma ScanLinesStep(st: State, lines: seq<string>, i: nat, from: nat, next: nat)
    requires i < |lines| && next == from + |lines[i]| + 1
    ensures ScanLines(st, lines[i..], from) == ScanLines(ScanLine(st, lines[i], from), lines[i + 1..], next)
  {
    assert lines[i..][1..] == lines[i + 1..];
  }

  /** Once every line is scanned, the state is what the scan produced. */
  lemma ScanLinesDone(st: State, lines: seq<string>, i: nat, from: nat)
    requires i == |lines|
    ensures ScanLines(st, lines[i..], from) == st
  {
    assert lines[i..] == [];
  }

  /** `buildDecorations`: the widgets of the whole document, in the order they are added. */
  function Decorations(doc: string): seq<Widget>
  {
    ScanLines(State([], 0), Split(doc, '\n'), 0).widgets
  }

  lemma ScanStep(st: State, m: Match, rest: seq<Match>, from: nat, wiki: bool)
    ensures ScanMatches(st, [m] + rest, from, wiki)
            == ScanMatches(Accept(st, from + m.start, from + m.start + |m.text|, m, wiki), rest, from, wiki)
  {
    assert ([m] + rest)[1..] == rest;
  }

  // ----- the accepted widgets never overlap -----

  /** Widgets cover non-empty spans, in document order, without overlap, all ending by
      `lastPos`. */
  predicate Disjoint(st: State)
  {
    (forall i :: 0 <= i < |st.widgets| ==> st.widgets[i].start < st.widgets[i].pos <= st.lastPos)
    && (forall i, j :: 0 <= i < j < |st.widgets| ==> st.widgets[i].pos <= st.widgets[j].start)
  }

  lemma AcceptDisjoint(st: State, start: nat, end: nat, m: Match, wiki: bool)
    requires Disjoint(st) && start < end
    ensures Disjoint(Accept(st, start, end, m, wiki))
    ensures Accept(st, start, end, m, wiki).lastPos >= st.lastPos
    ensures st.widgets <= Accept(st, start, end, m, wiki).widgets
  {
    var r := Accept(st, start, end, m, wiki);
    assert r.widgets[..|st.widgets|] == st.widgets;
  }

  /** Scanning one line keeps the widgets disjoint, only grows `lastPos`, only appends,
      and accepts nothing beyond the line. */
  lemma {:induction false} ScanMatchesDisjoint(st: State, text: string, ms: seq<Match>, from: nat, wiki: bool)
    requires Disjoint(st)
    requires forall k :: 0 <= k < |ms| ==> ms[k].start < ms[k].end <= |text| && |ms[k].text| == ms[k].end - ms[k].start
    ensures var r := ScanMatches(st, ms, from, wiki);
            Disjoint(r) && r.lastPos >= st.lastPos && st.widgets <= r.widgets
            && (r.lastPos == st.lastPos || r.lastPos <= from + |text|)
    decreases |ms|
  {
    if |ms| > 0 {
      var m := ms[0];
      var a, b := from + m.start, from + m.start + |m.text|;
      assert b == from + m.end <= from + |text|;
      var next := Accept(st, a, b, m, wiki);
      AcceptDisjoint(st, a, b, m, wiki);
      assert forall k :: 0 <= k < |ms| - 1 ==> ms[1..][k] == ms[k + 1];
      ScanMatchesDisjoint(next, text, ms[1..], from, wiki);
      var r := ScanMatches(next, ms[1..], from, wiki);
      assert r.widgets[..|next.widgets|] == next.widgets;
      assert r.widgets[..|st.widgets|] == next.widgets[..|st.widgets|];
    }
  }

  lemma FoundMatchesSpans(p: Pattern, text: string)
    ensures var ms := AllMatches(p, text);
            forall k :: 0 <= k < |ms| ==> ms[k].start < ms[k].end <= |text| && |ms[k].text| == ms[k].end - ms[k].start
  {
    var ms := AllMatches(p, text);
    forall k | 0 <= k < |ms| ensures ms[k].start < ms[k].end <= |text| && |ms[k].text| == ms[k].end - ms[k].start {
      FoundSpan(p, text, k);
    }
  }

  lemma ScanLineDisjoint(st: State, text: string, from: nat)
    requires Disjoint(st) && st.lastPos <= from + |text|
    ensures var r := ScanLine(st, text, from);
            Disjoint(r) && st.lastPos <= r.lastPos <= from + |text| && st.widgets <= r.widgets
  {
    var md := AllMatches(DecoratorMarkdown, text);
    FoundMatchesSpans(DecoratorMarkdown, text);
    FoundMatchesSpans(DecoratorWiki, text);
    ScanMatchesDisjoint(st, text, md, from, false);
    var a := ScanMatches(st, md, from, false);
    ScanMatchesDisjoint(a, text, AllMatches(DecoratorWiki, text), from, true);
    var r := ScanLine(st, text, from);
    assert r.widgets[..|a.widgets|] == a.widgets;
    assert r.widgets[..|st.widgets|] == a.widgets[..|st.widgets|];
  }

  lemma {:induction false} ScanLinesDisjoint(st: State, lines: seq<string>, from: nat)
    requires Disjoint(st) && st.lastPos <= from
    ensures Disjoint(ScanLines(st, lines, from))
    decreases |lines|
  {
    if |lines| > 0 {
      ScanLinesDisjointStep(st, lines, from);
      ScanLinesDisjoint(ScanLine(st, lines[0], from), lines[1..], from + |lines[0]| + 1);
    }
  }

  lemma ScanLinesDisjointStep(st: State, lines: seq<string>, from: nat)
    requires Disjoint(st) && st.lastPos <= from && |lines| > 0
    ensures var next := ScanLine(st, lines[0], from);
            Disjoint(next) && next.lastPos <= from + |lines[0]| + 1
            && ScanLines(st, lines, from) == ScanLines(next, lines[1..], from + |lines[0]| + 1)
  {
    ScanLineDisjoint(st, lines[0], from);
  }

  /** The decorations are in document order and never overlap: each widget's link ends
      no later than the next one starts, so the builder receives sorted positions. */
  lemma DecorationsDisjoint(doc: string)
    ensures var ws := Decorations(doc);
            (forall i :: 0 <= i < |ws| ==> ws[i].start < ws[i].pos)
            && (forall i, j :: 0 <= i < j < |ws| ==> ws[i].pos <= ws[j].start && ws[i].pos <= ws[j].pos)
  {
    ScanLinesDisjoint(State([], 0), Split(doc, '\n'), 0);
  }

  // ----- markdown links are never skipped -----

  /** The widgets of a run of matches none of which is skipped. */
  function WidgetsOf(ms: seq<Match>, from: nat, wiki: bool): seq<Widget>
  {
    if |ms| == 0 then []
    else [Widget(from + ms[0].start + |ms[0].text|, from + ms[0].start, ms[0], wiki)]
         + WidgetsOf(ms[1..], from, wiki)
  }

  /** Matches found by one scan follow each other, so when `lastPos` has not passed the
      first one, every one of them is accepted. */
  lemma {:induction false} ChainAllAccepted(st: State, ms: seq<Match>, lo: nat, to: nat, from: nat, wiki: bool)
    requires Chain(ms, lo, to) && st.lastPos <= from + lo
    requires forall k :: 0 <= k < |ms| ==> |ms[k].text| == ms[k].end - ms[k].start
    ensures ScanMatches(st, ms, from, wiki).widgets == st.widgets + WidgetsOf(ms, from, wiki)
    decreases |ms|
  {
    if |ms| == 0 {
      assert st.widgets + [] == st.widgets;
    } else {
      var m := ms[0];
      var w := Widget(from + m.start + |m.text|, from + m.start, m, wiki);
      var next := Accept(st, from + m.start, from + m.start + |m.text|, m, wiki);
      assert next == State(st.widgets + [w], from + m.end);
      assert forall k :: 0 <= k < |ms| - 1 ==> ms[1..][k] == ms[k + 1];
      ChainAllAccepted(next, ms[1..], m.end, to, from, wiki);
      assert st.widgets + [w] + WidgetsOf(ms[1..], from, wiki) == st.widgets + WidgetsOf(ms, from, wiki);
    }
  }

  /** Every markdown image link of a line gets its widget, in order, whatever came before
      on earlier lines. */
  lemma MarkdownLinksKept(st: State, text: string, from: nat)
    requires st.lastPos <= from
    ensures var md := AllMatches(DecoratorMarkdown, text);
            st.widgets + WidgetsOf(md, from, false) <= ScanLine(st, text, from).widgets
  {
    var md := AllMatches(DecoratorMarkdown, text);
    FoundMatchesSpans(DecoratorMarkdown, text);
    ChainAllAccepted(st, md, 0, |text|, from, false);
    var a := ScanMatches(st, md, from, false);
    FoundMatchesSpans(DecoratorWiki, text);
    ScanMatchesAppends(a, AllMatches(DecoratorWiki, text), from, true);
  }

  lemma {:induction false} ScanMatchesAppends(st: State, ms: seq<Match>, from: nat, wiki: bool)
    ensures st.widgets <= ScanMatches(st, ms, from, wiki).widgets
    decreases |ms|
  {
    if |ms| > 0 {
      var m := ms[0];
      var next := Accept(st, from + m.start, from + m.start + |m.text|, m, wiki);
      ScanMatchesAppends(next, ms[1..], from, wiki);
      var r := ScanMatches(next, ms[1..], from, wiki);
      assert next.widgets[..|st.widgets|] == st.widgets;
      assert r.widgets[..|st.widgets|] == next.widgets[..|st.widgets|];
    }
  }

  /** A wiki link that starts before the end of the line's last markdown link gets no
      widget of its own, even when it does not overlap that link: the only widget that
      can start where it starts is a markdown one. */
  lemma WikiBeforeMarkdownSkipped(st: State, text: string, from: nat, k: nat)
    requires st.lastPos <= from
    requires var md := AllMatches(DecoratorMarkdown, text);
             |md| > 0 && k < |AllMatches(DecoratorWiki, text)|
             && AllMatches(DecoratorWiki, text)[k].start < md[|md| - 1].end
    ensures var wk := AllMatches(DecoratorWiki, text)[k];
            forall w :: w in ScanLine(st, text, from).widgets && w.start == from + wk.start ==>
              w in st.widgets + WidgetsOf(AllMatches(DecoratorMarkdown, text), from, false)
  {
    var md := AllMatches(DecoratorMarkdown, text);
    var wiki := AllMatches(DecoratorWiki, text);
    FoundMatchesSpans(DecoratorMarkdown, text);
    FoundMatchesSpans(DecoratorWiki, text);
    ChainAllAccepted(st, md, 0, |text|, from, false);
    LastAccepted(st, md, 0, |text|, from);
    ChainOrdered(wiki, 0, |text|);
    var a := ScanMatches(st, md, from, false);
    SkipsBefore(a, wiki, from, from + md[|md| - 1].end, k);
  }

  /** After a run of accepted markdown links, `lastPos` is the end of the last one. */
  lemma {:induction false} LastAccepted(st: State, ms: seq<Match>, lo: nat, to: nat, from: nat)
    requires Chain(ms, lo, to) && st.lastPos <= from + lo && |ms| > 0
    requires forall k :: 0 <= k < |ms| ==> |ms[k].text| == ms[k].end - ms[k].start
    ensures ScanMatches(st, ms, from, false).lastPos == from + ms[|ms| - 1].end
    decreases |ms|
  {
    var m := ms[0];
    var next := Accept(st, from + m.start, from + m.start + |m.text|, m, false);
    assert forall k :: 0 <= k < |ms| - 1 ==> ms[1..][k] == ms[k + 1];
    if |ms| > 1 {
      LastAccepted(next, ms[1..], m.end, to, from);
    }
  }

  /** While `lastPos` is at or beyond `bound`, the match `k`, which starts before
      `bound`, adds no widget at its start. */
  lemma {:induction false} SkipsBefore(st: State, ms: seq<Match>, from: nat, bound: nat, k: nat)
    requires st.lastPos >= bound && k < |ms| && from + ms[k].start < bound
    requires forall j :: 0 <= j < |ms| && j != k ==> ms[j].start != ms[k].start
    ensures forall w :: w in ScanMatches(st, ms, from, true).widgets && w.start == from + ms[k].start ==> w in st.widgets
    decreases |ms|
  {
    var m := ms[0];
    var next := Accept(st, from + m.start, from + m.start + |m.text|, m, true);
    assert forall j :: 0 <= j < |ms| - 1 ==> ms[1..][j] == ms[j + 1];
    if k == 0 {
      assert next == st;
      ScanMatchesOwn(next, ms[1..], from);
    } else {
      SkipsBefore(next, ms[1..], from, bound, k - 1);
    }
  }

  /** Every widget a wiki scan adds starts where one of its matches starts. */
  lemma {:induction false} ScanMatchesOwn(st: State, ms: seq<Match>, from: nat)
    ensures forall w :: w in ScanMatches(st, ms, from, true).widgets ==>
              w in st.widgets || exists j :: 0 <= j < |ms| && w.start == from + ms[j].start
    decreases |ms|
  {
    if |ms| > 0 {
      var m := ms[0];
      var next := Accept(st, from + m.start, from + m.start + |m.text|, m, true);
      ScanMatchesOwn(next, ms[1..], from);
      forall w | w in ScanMatches(st, ms, from, true).widgets
        ensures w in st.widgets || exists j :: 0 <= j < |ms| && w.start == from + ms[j].start
      {
        if w !in next.widgets {
          var j :| 0 <= j < |ms[1..]| && w.start == from + ms[1..][j].start;
          assert ms[1..][j] == ms[j + 1];
        } else if w !in st.widgets {
          assert w.start == from + ms[0].start;
        }
      }
    }
  }

  // ----- the editor extension -----

  class MediaToolbarDecorator {
    var decorations: seq<Widget>

    /** The decorations are built when the extension is created. */
    constructor(doc: string)
      ensures decorations == Decorations(doc)
    {
      var ws := BuildDecorations(doc);
      decorations := ws;
    }

    /** `update`: rebuild only for updates `shouldProcessUpdate` accepts. */
    method Update(u: ViewUpdate, doc: string)
      modifies this
      ensures decorations == if ShouldProcessUpdate(u) then Decorations(doc) else old(decorations)
    {
      if ShouldProcessUpdate(u) {
        var ws := BuildDecorations(doc);
        decorations := ws;
      }
    }

    /** `destroy`. */
    method Destroy()
      modifies this
      ensures decorations == []
    {
      decorations := [];
    }
  }

  /** `buildDecorations`: the loop over lines and, inside it, the two `exec` loops. */
  method BuildDecorations(doc: string) returns (widgets: seq<Widget>)
    ensures widgets == Decorations(doc)
  {
    var lastPos;
    widgets, lastPos := ScanAllLines(Split(doc, '\n'));
  }

  /** The loop over the lines, each line starting after the previous one's break. */
  method ScanAllLines(lines: seq<string>) returns (widgets: seq<Widget>, lastPos: nat)
    ensures State(widgets, lastPos) == ScanLines(State([], 0), lines, 0)
  {
    widgets, lastPos := [], 0;
    var from: nat := 0;
    var i := 0;
    ghost var whole := ScanLines(State([], 0), lines, 0);
    while i < |lines|
      invariant 0 <= i <= |lines|
      invariant ScanLines(State(widgets, lastPos), lines[i..], from) == whole
    {
      widgets, lastPos, from := ScanNextLine(lines, i, from, widgets, lastPos);
      i := i + 1;
    }
    ScanLinesDone(State(widgets, lastPos), lines, i, from);
  }

  /** One turn of the loop over the lines: scan line `i`, then step past its break. */
  method ScanNextLine(lines: seq<string>, i: nat, from0: nat, widgets0: seq<Widget>, lastPos0: nat)
    returns (widgets: seq<Widget>, lastPos: nat, from: nat)
    requires i < |lines|
    ensures from == from0 + |lines[i]| + 1
    ensures ScanLines(State(widgets, lastPos), lines[i + 1..], from) == ScanLines(State(widgets0, lastPos0), lines[i..], from0)
  {
    from := from0 + |lines[i]| + 1;
    ScanLinesStep(State(widgets0, lastPos0), lines, i, from0, from);
    widgets, lastPos := ScanLineLoops(lines[i], from0, widgets0, lastPos0);
  }



  /** The two `exec` loops over one line: markdown links first, then wiki links. */
  method ScanLineLoops(text: string, from: nat, widgets0: seq<Widget>, lastPos0: nat)
    returns (widgets: seq<Widget>, lastPos: nat)
    ensures State(widgets, lastPos) == ScanLine(State(widgets0, lastPos0), text, from)
  {
    var w1, p1 := ScanLoop(DecoratorMarkdown, text, from, false, widgets0, lastPos0);
    widgets, lastPos := ScanLoop(DecoratorWiki, text, from, true, w1, p1);
  }

  /** The body of the `exec` loop: `if (start < lastPos) continue`, else add the widget
      at the end of the match and move `lastPos` there. */
  method AddUnlessBefore(widgets0: seq<Widget>, lastPos0: nat, m: Match, from: nat, wiki: bool)
    returns (widgets: seq<Widget>, lastPos: nat)
    ensures State(widgets, lastPos) == Accept(State(widgets0, lastPos0), from + m.start, from + m.start + |m.text|, m, wiki)
  {
    widgets, lastPos := widgets0, lastPos0;
    var start := from + m.start;
    var end := start + |m.text|;
    if start >= lastPos {
      widgets := widgets + [Widget(end, start, m, wiki)];
      lastPos := end;
    }
  }

  /** One `while ((match = regex.exec(text)) !== null)` loop over a line. */
  method ScanLoop(p: Pattern, text: string, from: nat, wiki: bool,
                    widgets0: seq<Widget>, lastPos0: nat) returns (widgets: seq<Widget>, lastPos: nat)
    ensures State(widgets, lastPos) == ScanMatches(State(widgets0, lastPos0), AllMatches(p, text), from, wiki)
  {
    widgets, lastPos := widgets0, lastPos0;
    var lastIndex := 0;
    var next := NextMatch(p, text, 0);
    while next.Some?
      invariant lastIndex <= |text| && next == NextMatch(p, text, lastIndex)
      invariant ScanMatches(State(widgets, lastPos), FindAll(p, text, lastIndex), from, wiki)
                == ScanMatches(State(widgets0, lastPos0), AllMatches(p, text), from, wiki)
      decreases |text| - lastIndex
    {
      var m := next.value;
      FindAllNext(p, text, lastIndex);
      ScanStep(State(widgets, lastPos), m, FindAll(p, text, m.end), from, wiki);
      widgets, lastPos := AddUnlessBefore(widgets, lastPos, m, from, wiki);
      lastIndex := m.end;
      next := NextMatch(p, text, lastIndex);
    }
    FindAllNext(p, text, lastIndex);
  }
}
