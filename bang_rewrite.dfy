// The two `!` rewrites of the plugin's entry point.  When a note is opened,
// every wiki or markdown link to an image loses the `!` that makes it an
// embed; when the plugin unloads, every such link in the notes it opened gets
// a `!` back.  The unload pattern, as written, has no `!?` prefix, so its
// "already has a `!`" test never fires and a link that already had one gets a
// second; `RestoreBangs` is the rewrite with the prefix the test expects.

module BangRewrite {
  import opened Common
  import opened Text
  import opened Patterns
  import opened Scan
  import opened Pieces

  /** The file-open callback: drop a leading `!`. */
  function DropBang(m: Match): string
  {
    if |m.text| > 0 && m.text[0] == '!' then m.text[1..] else m.text
  }

  /** The unload callback: prefix a `!` unless the match starts with one. */
  function AddBang(m: Match): string
  {
    if |m.text| > 0 && m.text[0] == '!' then m.text else "!" + m.text
  }

  /** File open: both link shapes, each with an optional leading `!`. */
  function StripBangs(s: string): string
  {
    ReplaceAll(EmbeddedImage(true), s, DropBang)
  }

  /** Unload, as written: both link shapes, with no `!?` prefix. */
  function RestoreBangsAsWritten(s: string): string
  {
    ReplaceAll(EmbeddedImage(false), s, AddBang)
  }

  /** Unload with the `!?` prefix of the file-open pattern, so that the callback's test
      sees the `!` a link already has. */
  function RestoreBangs(s: string): string
  {
    ReplaceAll(EmbeddedImage(true), s, AddBang)
  }

  // ---------------------------------------------------------------------------
  // Only `!` characters change.

  /** The text with every `!` taken out. */
  function RemoveBangs(s: string): (r: string)
    ensures '!' !in r
  {
    if |s| == 0 then []
    else (if s[0] == '!' then [] else [s[0]]) + RemoveBangs(s[1..])
  }

  lemma {:induction false} RemoveBangsAppend(a: string, b: string)
    ensures RemoveBangs(a + b) == RemoveBangs(a) + RemoveBangs(b)
    decreases |a|
  {
    if |a| == 0 {
      assert a + b == b;
    } else {
      assert (a + b)[0] == a[0] && (a + b)[1..] == a[1..] + b;
      RemoveBangsAppend(a[1..], b);
      var h := if a[0] == '!' then [] else [a[0]];
      assert RemoveBangs(a + b) == h + RemoveBangs(a[1..] + b);
      assert RemoveBangs(a) == h + RemoveBangs(a[1..]);
    }
  }

  lemma RemoveBangsThree(x: string, y: string, z: string)
    ensures RemoveBangs(x + y + z) == RemoveBangs(x) + RemoveBangs(y) + RemoveBangs(z)
  {
    RemoveBangsAppend(x + y, z);
    RemoveBangsAppend(x, y);
  }

  /** Both callbacks only take away or add a leading `!`. */
  lemma CallbackOnlyBangs(m: Match)
    ensures RemoveBangs(DropBang(m)) == RemoveBangs(m.text)
    ensures RemoveBangs(AddBang(m)) == RemoveBangs(m.text)
  {
    RemoveBangsAppend("!", m.text);
  }

  lemma DropAddOnlyBangs()
    ensures forall m: Match :: RemoveBangs(DropBang(m)) == RemoveBangs(m.text)
    ensures forall m: Match :: RemoveBangs(AddBang(m)) == RemoveBangs(m.text)
  {
    forall m: Match ensures RemoveBangs(DropBang(m)) == RemoveBangs(m.text) && RemoveBangs(AddBang(m)) == RemoveBangs(m.text) {
      CallbackOnlyBangs(m);
    }
  }

  predicate TextsInPlace(s: string, ms: seq<Match>)
  {
    forall k :: 0 <= k < |ms| ==> ms[k].start <= ms[k].end <= |s| && ms[k].text == s[ms[k].start..ms[k].end]
  }

  /** The matches of a scan are copies of the text at their spans. */
  lemma AllInPlace(p: Pattern, s: string)
    ensures TextsInPlace(s, AllMatches(p, s))
  {
    var ms := AllMatches(p, s);
    forall k | 0 <= k < |ms| ensures ms[k].start <= ms[k].end <= |s| && ms[k].text == s[ms[k].start..ms[k].end] {
      FindAllAt(p, s, 0, k);
    }
  }

  /** Replacing matches by a callback that only adds or drops `!`s leaves the text
      without its `!`s as it was. */
  lemma {:induction false} ReplaceOnlyBangs(s: string, ms: seq<Match>, from: nat, f: Match -> string)
    requires from <= |s| && Chain(ms, from, |s|) && TextsInPlace(s, ms)
    requires forall m: Match :: RemoveBangs(f(m)) == RemoveBangs(m.text)
    ensures RemoveBangs(ReplaceMatches(s, ms, from, f)) == RemoveBangs(s[from..])
    decreases |ms|
  {
    if |ms| > 0 {
      var m := ms[0];
      assert TextsInPlace(s, ms[1..]) by {
        forall k | 0 <= k < |ms| - 1 ensures ms[1..][k] == ms[k + 1] { }
      }
      ReplaceOnlyBangs(s, ms[1..], m.end, f);
      ReplaceStepBangs(s, ms, from, f);
    }
  }

  lemma ReplaceStepBangs(s: string, ms: seq<Match>, from: nat, f: Match -> string)
    requires from <= |s| && Chain(ms, from, |s|) && |ms| > 0
    requires ms[0].text == s[ms[0].start..ms[0].end]
    requires RemoveBangs(f(ms[0])) == RemoveBangs(ms[0].text)
    requires RemoveBangs(ReplaceMatches(s, ms[1..], ms[0].end, f)) == RemoveBangs(s[ms[0].end..])
    ensures RemoveBangs(ReplaceMatches(s, ms, from, f)) == RemoveBangs(s[from..])
  {
    var m := ms[0];
    UnfoldReplace(s, ms, from, f);
    SplitAround(s, from, m.start, m.end);
    BangsCongruence(s[from..m.start], f(m), ReplaceMatches(s, ms[1..], m.end, f), m.text, s[m.end..]);
  }

  lemma UnfoldReplace(s: string, ms: seq<Match>, from: nat, f: Match -> string)
    requires from <= |s| && Chain(ms, from, |s|) && |ms| > 0
    ensures ReplaceMatches(s, ms, from, f)
            == s[from..ms[0].start] + f(ms[0]) + ReplaceMatches(s, ms[1..], ms[0].end, f)
  {
  }

  lemma SplitAround(s: string, a: nat, b: nat, c: nat)
    requires a <= b <= c <= |s|
    ensures s[a..] == s[a..b] + s[b..c] + s[c..]
  {
  }

  lemma BangsCongruence(x: string, y1: string, z1: string, y2: string, z2: string)
    requires RemoveBangs(y1) == RemoveBangs(y2) && RemoveBangs(z1) == RemoveBangs(z2)
    ensures RemoveBangs(x + y1 + z1) == RemoveBangs(x + y2 + z2)
  {
    RemoveBangsThree(x, y1, z1);
    RemoveBangsThree(x, y2, z2);
  }

  /** Opening a note only removes `!` characters. */
  lemma StripOnlyRemovesBangs(s: string)
    ensures RemoveBangs(StripBangs(s)) == RemoveBangs(s)
    ensures |StripBangs(s)| <= |s|
  {
    var ms := AllMatches(EmbeddedImage(true), s);
    AllInPlace(EmbeddedImage(true), s);
    DropAddOnlyBangs();
    ReplaceOnlyBangs(s, ms, 0, DropBang);
    DropLength(s, ms, 0);
  }

  /** Unloading, in either form, only adds `!` characters. */
  lemma RestoreOnlyAddsBangs(s: string)
    ensures RemoveBangs(RestoreBangsAsWritten(s)) == RemoveBangs(s)
    ensures RemoveBangs(RestoreBangs(s)) == RemoveBangs(s)
    ensures |RestoreBangs(s)| >= |s|
  {
    AddKeepsText(s, EmbeddedImage(false));
    AddKeepsText(s, EmbeddedImage(true));
    AllInPlace(EmbeddedImage(true), s);
    AddLength(s, AllMatches(EmbeddedImage(true), s), 0);
  }

  lemma AddKeepsText(s: string, p: Pattern)
    ensures RemoveBangs(ReplaceAll(p, s, AddBang)) == RemoveBangs(s)
  {
    DropAddOnlyBangs();
    AllInPlace(p, s);
    ReplaceOnlyBangs(s, AllMatches(p, s), 0, AddBang);
  }

  lemma {:induction false} DropLength(s: string, ms: seq<Match>, from: nat)
    requires from <= |s| && Chain(ms, from, |s|) && TextsInPlace(s, ms)
    ensures |ReplaceMatches(s, ms, from, DropBang)| <= |s| - from
    decreases |ms|
  {
    if |ms| > 0 {
      assert forall k :: 0 <= k < |ms| - 1 ==> ms[1..][k] == ms[k + 1];
      DropLength(s, ms[1..], ms[0].end);
    }
  }

  lemma {:induction false} AddLength(s: string, ms: seq<Match>, from: nat)
    requires from <= |s| && Chain(ms, from, |s|) && TextsInPlace(s, ms)
    ensures |ReplaceMatches(s, ms, from, AddBang)| >= |s| - from
    decreases |ms|
  {
    if |ms| > 0 {
      assert forall k :: 0 <= k < |ms| - 1 ==> ms[1..][k] == ms[k + 1];
      AddLength(s, ms[1..], ms[0].end);
    }
  }

  /** Every match of the unload pattern starts with `[`. */
  lemma EmbeddedCoreOpens(s: string, j: nat)
    requires j <= |s|
    ensures EmbeddedCore(s, j).Some? ==> j < |s| && s[j] == '['
  {
    if WikiExtAt(s, j, 1).Some? {
      assert OccursAt(s, "[[", j);
      assert s[j..j + 2][0] == s[j];
    }
  }

  /** A match text that starts with `[`, which `AddBang` always prefixes. */
  predicate Opens(m: Match)
  {
    |m.text| > 0 && m.text[0] == '['
  }

  lemma {:induction false} AddLengthExact(s: string, ms: seq<Match>, from: nat)
    requires from <= |s| && Chain(ms, from, |s|) && TextsInPlace(s, ms)
    requires forall k :: 0 <= k < |ms| ==> Opens(ms[k])
    ensures |ReplaceMatches(s, ms, from, AddBang)| == |s| - from + |ms|
    decreases |ms|
  {
    if |ms| > 0 {
      assert forall k :: 0 <= k < |ms| - 1 ==> ms[1..][k] == ms[k + 1];
      AddLengthExact(s, ms[1..], ms[0].end);
    }
  }

  /** Unloading, as written, adds exactly one `!` per image link it finds. */
  lemma RestoreAsWrittenAddsOnePerLink(s: string)
    ensures |RestoreBangsAsWritten(s)| == |s| + |AllMatches(EmbeddedImage(false), s)|
  {
    var ms := AllMatches(EmbeddedImage(false), s);
    AllOpen(s, ms);
    AllInPlace(EmbeddedImage(false), s);
    AddLengthExact(s, ms, 0);
  }

  lemma AllOpen(s: string, ms: seq<Match>)
    requires ms == AllMatches(EmbeddedImage(false), s)
    ensures forall k :: 0 <= k < |ms| ==> Opens(ms[k])
  {
    forall k | 0 <= k < |ms| ensures Opens(ms[k]) {
      FindAllAt(EmbeddedImage(false), s, 0, k);
      EmbeddedCoreOpens(s, ms[k].start);
    }
  }

  // ---------------------------------------------------------------------------
  // The scan over a note made of prose and image links.

  // The positions of a copy of `l` at `j` are passed alongside their offsets in `l`
  // (`ja == j + a`), so that every fact is stated on the very terms its user has.

  lemma SliceOfCopy(s: string, j: nat, l: string, a: nat, b: nat, ja: nat, jb: nat)
    requires j + |l| <= |s| && s[j..j + |l|] == l && a <= b <= |l|
    requires ja == j + a && jb == j + b
    ensures s[ja..jb] == l[a..b]
  {
    forall i | 0 <= i < b - a ensures s[ja..jb][i] == l[a..b][i] {
      assert s[j..j + |l|][a + i] == l[a + i];
    }
  }

  lemma CharOfCopy(s: string, j: nat, l: string, i: nat, ji: nat)
    requires j + |l| <= |s| && s[j..j + |l|] == l && i < |l| && ji == j + i
    ensures s[ji] == l[i]
  {
    assert s[j..j + |l|][i] == s[ji];
  }

  /** The same `FindChar` step inside a copy of `l` at `j`. */
  lemma FindCharShift(s: string, j: nat, l: string, a: nat, c: char, ja: nat, jk: nat)
    requires j + |l| <= |s| && s[j..j + |l|] == l && a <= |l| && FindChar(l, a, c) < |l|
    requires ja == j + a && jk == j + FindChar(l, a, c)
    ensures FindChar(s, ja, c) == jk
  {
    var k := FindChar(l, a, c);
    forall i | ja <= i < jk ensures s[i] != c {
      CharOfCopy(s, j, l, i - j, i);
    }
    CharOfCopy(s, j, l, k, jk);
  }

  lemma PairAt(s: string, t: string, i: nat)
    requires |t| == 2
    ensures OccursAt(s, t, i) <==> i + 2 <= |s| && s[i] == t[0] && s[i + 1] == t[1]
  {
    if i + 2 <= |s| {
      assert s[i..i + 2][0] == s[i] && s[i..i + 2][1] == s[i + 1];
      if s[i] == t[0] && s[i + 1] == t[1] {
        assert s[i..i + 2] == t;
      }
    }
  }

  lemma WikiLocal(s: string, j: nat, l: string)
    requires j + |l| <= |s| && s[j..j + |l|] == l
    requires WikiExtAt(l, 0, 1).Some? && WikiExtAt(l, 0, 1).value.end == |l|
    ensures WikiExtAt(s, j, 1).Some? && WikiExtAt(s, j, 1).value.end == j + |l|
  {
    var c := FindChar(l, 2, ']');
    var j2, jc, e := j + 2, j + c, j + |l|;
    assert c + 2 == |l|;
    FindCharShift(s, j, l, 2, ']', j2, jc);
    SliceOfCopy(s, j, l, 0, 2, j, j2);
    SliceOfCopy(s, j, l, c, |l|, jc, e);
    SliceOfCopy(s, j, l, 2, c, j2, jc);
  }

  /** The markdown alternative of `EmbeddedCore` at `j`, once the wiki one has failed. */
  lemma MarkdownAt(s: string, j: nat, q: nat, c: nat)
    requires j < |s| && s[j] == '[' && WikiExtAt(s, j, 1).None?
    requires q == FindChar(s, j + 1, ']') && OccursAt(s, "](", q)
    requires c == FindChar(s, q + 2, ')') && c < |s| && HasImageExt(s[q + 2..c], 1)
    ensures EmbeddedCore(s, j).Some? && EmbeddedCore(s, j).value.end == c + 1
  {
    MarkdownHit(s, j, q, c);
  }

  lemma MarkdownHit(s: string, j: nat, q: nat, c: nat)
    requires j < |s| && s[j] == '['
    requires q == FindChar(s, j + 1, ']') && OccursAt(s, "](", q)
    requires c == FindChar(s, q + 2, ')') && c < |s| && HasImageExt(s[q + 2..c], 1)
    ensures MarkdownExtAt(s, j).Some? && MarkdownExtAt(s, j).value.end == c + 1
  {
    assert LabelEnd(s, j) == q;
    assert UrlEnd(s, q) == c;
  }

  lemma MarkdownLocal(s: string, j: nat, l: string, q: nat, c: nat)
    requires j + |l| <= |s| && s[j..j + |l|] == l && 0 < |l| && l[0] == '['
    requires q == FindChar(l, 1, ']') && OccursAt(l, "](", q)
    requires c == FindChar(l, q + 2, ')') && c + 1 == |l| && HasImageExt(l[q + 2..c], 1)
    ensures EmbeddedCore(s, j).Some? && EmbeddedCore(s, j).value.end == j + |l|
  {
    var jq, jc := j + q, j + c;
    MarkdownHead(s, j, l, q, jq);
    MarkdownTail(s, j, l, q, c, jq, jc);
    MarkdownAt(s, j, jq, jc);
  }

  lemma MarkdownHead(s: string, j: nat, l: string, q: nat, jq: nat)
    requires j + |l| <= |s| && s[j..j + |l|] == l && 0 < |l| && l[0] == '['
    requires q == FindChar(l, 1, ']') && OccursAt(l, "](", q) && jq == j + q
    ensures s[j] == '[' && WikiExtAt(s, j, 1).None?
    ensures jq == FindChar(s, j + 1, ']') && OccursAt(s, "](", jq)
  {
    var j1, jq1 := j + 1, jq + 1;
    CharOfCopy(s, j, l, 0, j);
    WikiMissLocal(s, j, l, q, jq);
    FindCharShift(s, j, l, 1, ']', j1, jq);
    CharOfCopy(s, j, l, q, jq);
    CharOfCopy(s, j, l, q + 1, jq1);
    PairAt(l, "](", q);
    PairAt(s, "](", jq);
  }

  lemma MarkdownTail(s: string, j: nat, l: string, q: nat, c: nat, jq: nat, jc: nat)
    requires j + |l| <= |s| && s[j..j + |l|] == l && q + 2 <= c < |l|
    requires c == FindChar(l, q + 2, ')') && HasImageExt(l[q + 2..c], 1)
    requires jq == j + q && jc == j + c
    ensures jc == FindChar(s, jq + 2, ')') && HasImageExt(s[jq + 2..jc], 1)
  {
    var jq2 := jq + 2;
    FindCharShift(s, j, l, q + 2, ')', jq2, jc);
    SliceOfCopy(s, j, l, q + 2, c, jq2, jc);
  }

  lemma WikiMissLocal(s: string, j: nat, l: string, q: nat, jq: nat)
    requires j + |l| <= |s| && s[j..j + |l|] == l
    requires 1 <= q && q + 2 <= |l| && q == FindChar(l, 1, ']') && OccursAt(l, "](", q)
    requires jq == j + q
    ensures WikiExtAt(s, j, 1).None?
  {
    if OccursAt(s, "[[", j) {
      WikiMissClose(s, j, l, q, jq);
    }
  }

  /** A copy of a markdown link opened by `[[` closes its label with `](`, not `]]`. */
  lemma WikiMissClose(s: string, j: nat, l: string, q: nat, jq: nat)
    requires j + |l| <= |s| && s[j..j + |l|] == l && OccursAt(s, "[[", j)
    requires 1 <= q && q + 2 <= |l| && q == FindChar(l, 1, ']') && OccursAt(l, "](", q)
    requires jq == j + q
    ensures FindChar(s, j + 2, ']') == jq && !OccursAt(s, "]]", jq)
  {
    var j1, j2, jq1 := j + 1, j + 2, jq + 1;
    PairAt(s, "[[", j);
    CharOfCopy(s, j, l, 1, j1);
    assert FindChar(l, 1, ']') == FindChar(l, 2, ']');
    FindCharShift(s, j, l, 2, ']', j2, jq);
    CharOfCopy(s, j, l, q + 1, jq1);
    PairAt(l, "](", q);
    PairAt(s, "]]", jq);
  }

  /** An image link matches wherever it is copied, whatever surrounds it. */
  lemma EmbeddedCoreLocal(s: string, j: nat, l: string)
    requires j + |l| <= |s| && s[j..j + |l|] == l && IsImageLink(l)
    ensures EmbeddedCore(s, j).Some? && EmbeddedCore(s, j).value.end == j + |l|
  {
    if WikiExtAt(l, 0, 1).Some? {
      WikiLocal(s, j, l);
    } else {
      EmbeddedCoreOpens(l, 0);
      var q := FindChar(l, 1, ']');
      MarkdownLocal(s, j, l, q, FindChar(l, q + 2, ')'));
    }
  }

  /** What the scan does with a position outside every link: nothing. */
  predicate Quiet(b: bool, s: string, k: nat)
  {
    k < |s| && s[k] != '[' && (b && s[k] == '!' ==> k + 1 == |s| || s[k + 1] != '[')
  }

  lemma QuietNoMatch(b: bool, s: string, k: nat)
    requires Quiet(b, s, k)
    ensures MatchAt(EmbeddedImage(b), s, k).None?
  {
    EmbeddedCoreOpens(s, k);
    EmbeddedCoreOpens(s, k + 1);
  }

  /** The replacement from `from` on, with `DropBang` or `AddBang`. */
  function ScanFrom(b: bool, drop: bool, s: string, from: nat): string
    requires from <= |s|
  {
    ReplaceMatches(s, FindAll(EmbeddedImage(b), s, from), from, if drop then DropBang else AddBang)
  }

  lemma FindAllMiss(p: Pattern, s: string, from: nat, f1: nat)
    requires from < |s| && MatchAt(p, s, from).None? && f1 == from + 1
    ensures FindAll(p, s, from) == FindAll(p, s, f1)
  {
    assert NextMatch(p, s, from) == NextMatch(p, s, f1);
  }

  lemma ReplaceMatchesStep(s: string, ms: seq<Match>, from: nat, f: Match -> string, f1: nat)
    requires from < |s| && f1 == from + 1 && Chain(ms, f1, |s|)
    ensures Chain(ms, from, |s|)
    ensures ReplaceMatches(s, ms, from, f) == [s[from]] + ReplaceMatches(s, ms, f1, f)
  {
    if |ms| == 0 {
      SliceCons(s, from, |s|, f1);
    } else {
      var st := ms[0].start;
      UnfoldReplace(s, ms, from, f);
      UnfoldReplace(s, ms, f1, f);
      SliceCons(s, from, st, f1);
      ConsConcat(s[from], s[f1..st], f(ms[0]), ReplaceMatches(s, ms[1..], ms[0].end, f), s[from..st]);
    }
  }

  lemma SliceCons(s: string, from: nat, to: nat, f1: nat)
    requires from < to <= |s| && f1 == from + 1
    ensures s[from..to] == [s[from]] + s[f1..to]
  {
  }

  lemma ConsConcat(c: char, x: string, y: string, z: string, w: string)
    requires w == [c] + x
    ensures w + y + z == [c] + (x + y + z)
  {
  }

  lemma {:induction false} ScanMiss(b: bool, drop: bool, s: string, from: nat, f1: nat)
    requires from < |s| && MatchAt(EmbeddedImage(b), s, from).None? && f1 == from + 1
    ensures ScanFrom(b, drop, s, from) == [s[from]] + ScanFrom(b, drop, s, f1)
  {
    FindAllMiss(EmbeddedImage(b), s, from, f1);
    ReplaceMatchesStep(s, FindAll(EmbeddedImage(b), s, f1), from, if drop then DropBang else AddBang, f1);
  }

  lemma {:induction false} ScanHit(b: bool, drop: bool, s: string, from: nat, m: Match)
    requires from < |s| && MatchAt(EmbeddedImage(b), s, from) == Some(m)
    ensures from < m.end <= |s|
    ensures ScanFrom(b, drop, s, from) == Callback(drop, m) + ScanFrom(b, drop, s, m.end)
  {
    var p := EmbeddedImage(b);
    assert NextMatch(p, s, from) == Some(m);
    var rest := FindAll(p, s, m.end);
    assert FindAll(p, s, from) == [m] + rest;
    var f := if drop then DropBang else AddBang;
    HeadReplace(s, m, rest, from, f);
    assert f(m) == Callback(drop, m);
  }

  lemma HeadReplace(s: string, m: Match, rest: seq<Match>, from: nat, f: Match -> string)
    requires from <= |s| && m.start == from && Chain([m] + rest, from, |s|)
    ensures Chain(rest, m.end, |s|)
    ensures ReplaceMatches(s, [m] + rest, from, f) == f(m) + ReplaceMatches(s, rest, m.end, f)
  {
    var ms := [m] + rest;
    assert ms[0] == m && ms[1..] == rest;
    assert s[from..from] == [];
  }

  /** The matcher of the embedded-image pattern over `s`. */
  function EmbeddedAt(b: bool, s: string): Matcher
  {
    (k: nat) => if k < |s| then MatchAt(EmbeddedImage(b), s, k) else None
  }

  /** `at` agrees with the embedded-image pattern on every position of `s`.  The
      quantifier fires only on `AtPos` terms, so the pattern is unfolded only where a
      proof asks for it. */
  predicate Agrees(at: Matcher, b: bool, s: string)
  {
    forall k: nat {:trigger AtPos(at, k)} :: k < |s| ==> AtPos(at, k) == MatchAt(EmbeddedImage(b), s, k)
  }

  lemma EmbeddedAtAgrees(b: bool, s: string)
    ensures Agrees(EmbeddedAt(b, s), b, s)
  {
    forall k: nat | k < |s| ensures AtPos(EmbeddedAt(b, s), k) == MatchAt(EmbeddedImage(b), s, k) { }
  }

  /** The file-open callback or the unload one. */
  function Callback(drop: bool, m: Match): string
  {
    if drop then DropBang(m) else AddBang(m)
  }

  /** The scan with a callback, one position at a time: a match is replaced and
      skipped, any other character is copied.  A match that would not move the scan
      forward ends it; the plugin's matchers never give one. */
  function Sweep(at: Matcher, drop: bool, s: string, from: nat): string
    requires from <= |s|
    decreases |s| - from
  {
    if from == |s| then []
    else
      match at(from)
      case None => [s[from]] + Sweep(at, drop, s, from + 1)
      case Some(m) => if from < m.end <= |s| then Callback(drop, m) + Sweep(at, drop, s, m.end) else []
  }

  /** The replacement from `from` on is the sweep with the pattern's matcher. */
  lemma {:induction false} SweepIsScan(at: Matcher, b: bool, drop: bool, s: string, from: nat)
    requires from <= |s| && Agrees(at, b, s)
    ensures Sweep(at, drop, s, from) == ScanFrom(b, drop, s, from)
    decreases |s| - from, 1
  {
    if from < |s| {
      assert AtPos(at, from) == MatchAt(EmbeddedImage(b), s, from);
      match MatchAt(EmbeddedImage(b), s, from)
      case None => SweepScanMiss(at, b, drop, s, from, from + 1);
      case Some(m) => SweepScanHit(at, b, drop, s, from, m);
    } else {
      assert FindAll(EmbeddedImage(b), s, from) == [];
    }
  }

  lemma {:induction false} SweepScanMiss(at: Matcher, b: bool, drop: bool, s: string, from: nat, f1: nat)
    requires from < |s| && Agrees(at, b, s) && f1 == from + 1
    requires at(from).None? && MatchAt(EmbeddedImage(b), s, from).None?
    ensures Sweep(at, drop, s, from) == ScanFrom(b, drop, s, from)
    decreases |s| - from, 0
  {
    ScanMiss(b, drop, s, from, f1);
    SweepIsScan(at, b, drop, s, f1);
    SweepCopies(at, drop, s, from);
  }

  lemma {:induction false} SweepScanHit(at: Matcher, b: bool, drop: bool, s: string, from: nat, m: Match)
    requires from < |s| && Agrees(at, b, s)
    requires at(from) == Some(m) && MatchAt(EmbeddedImage(b), s, from) == Some(m)
    ensures Sweep(at, drop, s, from) == ScanFrom(b, drop, s, from)
    decreases |s| - from, 0
  {
    ScanHit(b, drop, s, from, m);
    SweepIsScan(at, b, drop, s, m.end);
    SweepHit(at, drop, s, from);
  }

  /** Positions where nothing matches are copied as they are. */
  lemma {:induction false} SweepQuiet(at: Matcher, drop: bool, s: string, from: nat, to: nat)
    requires from <= to <= |s|
    requires forall k :: from <= k < to ==> at(k).None?
    ensures Sweep(at, drop, s, from) == s[from..to] + Sweep(at, drop, s, to)
    decreases (to as int) - from
  {
    if from < to {
      SweepQuiet(at, drop, s, from + 1, to);
      SweepCopies(at, drop, s, from);
      CopyOneMore(s, from, to, Sweep(at, drop, s, to));
    }
  }

  lemma SweepCopies(at: Matcher, drop: bool, s: string, from: nat)
    requires from < |s| && at(from).None?
    ensures Sweep(at, drop, s, from) == [s[from]] + Sweep(at, drop, s, from + 1)
  {
  }

  lemma CopyOneMore(s: string, from: nat, to: nat, rest: string)
    requires from < to <= |s|
    ensures s[from..to] + rest == [s[from]] + (s[from + 1..to] + rest)
  {
    assert s[from..to] == [s[from]] + s[from + 1..to];
  }

  /** A matcher that finds the links sweeps them into links with `NewBangs` `!`s and
      copies the prose. */
  lemma {:induction false} SweepFinds(at: Matcher, b: bool, drop: bool, s: string, from: nat, ps: seq<Piece>, n: nat)
    requires Finds(at, b, s, from, ps, n)
    ensures Sweep(at, drop, s, from) == Render(ps, NewBangs(b, drop, n))
    decreases |ps|
  {
    if |ps| > 0 {
      match ps[0]
      case Prose(t) => {
        FindsProseParts(at, b, s, from, t, ps, n);
        SweepFinds(at, b, drop, s, from + |t|, ps[1..], n);
        SweepProse(at, drop, s, from, t, ps, NewBangs(b, drop, n));
      }
      case Image(l) => {
        FindsImageParts(at, b, s, from, l, ps, n);
        SweepFinds(at, b, drop, s, from + n + |l|, ps[1..], n);
        SweepImage(at, b, drop, s, from, l, ps, n);
      }
    }
  }

  lemma FindsProseParts(at: Matcher, b: bool, s: string, from: nat, t: string, ps: seq<Piece>, n: nat)
    requires Finds(at, b, s, from, ps, n) && |ps| > 0 && ps[0] == Prose(t)
    ensures from + |t| <= |s| && s[from..from + |t|] == t
    ensures forall k :: from <= k < from + |t| ==> at(k).None?
    ensures Finds(at, b, s, from + |t|, ps[1..], n)
  {
  }

  lemma FindsImageParts(at: Matcher, b: bool, s: string, from: nat, l: string, ps: seq<Piece>, n: nat)
    requires Finds(at, b, s, from, ps, n) && |ps| > 0 && ps[0] == Image(l)
    ensures from + Kept(b, n) < from + n + |l| <= |s| && |l| > 0 && l[0] == '['
    ensures s[from..from + Kept(b, n)] == Bangs(Kept(b, n))
    ensures forall k :: from <= k < from + Kept(b, n) ==> at(k).None?
    ensures at(from + Kept(b, n)).Some?
    ensures at(from + Kept(b, n)).value.end == from + n + |l|
    ensures at(from + Kept(b, n)).value.text in {l, "!" + l}
    ensures Finds(at, b, s, from + n + |l|, ps[1..], n)
  {
  }

  /** Prose is copied. */
  lemma SweepProse(at: Matcher, drop: bool, s: string, from: nat, t: string, ps: seq<Piece>, nb: nat)
    requires |ps| > 0 && ps[0] == Prose(t)
    requires from + |t| <= |s| && s[from..from + |t|] == t
    requires forall k :: from <= k < from + |t| ==> at(k).None?
    requires Sweep(at, drop, s, from + |t|) == Render(ps[1..], nb)
    ensures Sweep(at, drop, s, from) == Render(ps, nb)
  {
    SweepQuiet(at, drop, s, from, from + |t|);
  }

  /** The `!`s the pattern leaves are copied, then the link gets its callback. */
  lemma SweepImage(at: Matcher, b: bool, drop: bool, s: string, from: nat, l: string, ps: seq<Piece>, n: nat)
    requires |ps| > 0 && ps[0] == Image(l)
    requires from + Kept(b, n) < from + n + |l| <= |s| && |l| > 0 && l[0] == '['
    requires s[from..from + Kept(b, n)] == Bangs(Kept(b, n))
    requires forall k :: from <= k < from + Kept(b, n) ==> at(k).None?
    requires at(from + Kept(b, n)).Some?
    requires at(from + Kept(b, n)).value.end == from + n + |l|
    requires at(from + Kept(b, n)).value.text in {l, "!" + l}
    requires Sweep(at, drop, s, from + n + |l|) == Render(ps[1..], NewBangs(b, drop, n))
    ensures Sweep(at, drop, s, from) == Render(ps, NewBangs(b, drop, n))
  {
    var k := Kept(b, n);
    var m := at(from + k).value;
    var rest := Render(ps[1..], NewBangs(b, drop, n));
    SweepQuiet(at, drop, s, from, from + k);
    SweepHit(at, drop, s, from + k);
    assert Sweep(at, drop, s, from) == Bangs(k) + (Callback(drop, m) + rest);
    CallbackOnLink(drop, m, l);
    BangsThenLink(b, drop, n, l, Callback(drop, m), rest);
    RenderImage(ps, l, NewBangs(b, drop, n));
  }

  lemma RenderImage(ps: seq<Piece>, l: string, n: nat)
    requires |ps| > 0 && ps[0] == Image(l)
    ensures Render(ps, n) == Bangs(n) + l + Render(ps[1..], n)
  {
  }

  lemma SweepHit(at: Matcher, drop: bool, s: string, i: nat)
    requires i < |s| && at(i).Some? && i < at(i).value.end <= |s|
    ensures Sweep(at, drop, s, i) == Callback(drop, at(i).value) + Sweep(at, drop, s, at(i).value.end)
  {
  }

  /** The first character of a rendering with `!`s is never `[`. */
  lemma {:induction false} RenderHead(ps: seq<Piece>, n: nat)
    requires WellFormed(ps) && n > 0
    ensures |Render(ps, n)| > 0 ==> Render(ps, n)[0] != '['
    decreases |ps|
  {
    if |ps| > 0 {
      assert WellFormed(ps[1..]) by {
        forall i | 0 <= i < |ps| - 1 ensures ps[1..][i] == ps[i + 1] { }
      }
      RenderHead(ps[1..], n);
      match ps[0]
      case Prose(t) => {
        if |t| > 0 { assert t[0] in t; }
      }
      case Image(l) => { }
    }
  }

  lemma {:induction false} TailOfCopy(s: string, from: nat, x: string, y: string, e: nat)
    requires from <= |s| && s[from..] == x + y && e == from + |x|
    ensures e <= |s| && s[from..e] == x && s[e..] == y
  {
    assert s[from..][..|x|] == x && s[from..][|x|..] == y;
  }

  /** No position of prose starts a match. */
  lemma {:induction false} ProseQuiet(b: bool, s: string, from: nat, t: string, rest: seq<Piece>, n: nat, e: nat)
    requires from <= |s| && s[from..] == t + Render(rest, n) && e == from + |t|
    requires '[' !in t && WellFormed(rest) && (b && n == 0 ==> '!' !in t)
    ensures e <= |s| && s[from..e] == t && s[e..] == Render(rest, n)
    ensures forall k :: from <= k < e ==> Quiet(b, s, k)
  {
    TailOfCopy(s, from, t, Render(rest, n), e);
    if n > 0 { RenderHead(rest, n); }
    forall k | from <= k < e ensures Quiet(b, s, k) {
      CharOfCopy(s, from, t, k - from, k);
      assert t[k - from] in t;
      if k + 1 < e {
        CharOfCopy(s, from, t, k + 1 - from, k + 1);
        assert t[k + 1 - from] in t;
      } else if k + 1 < |s| {
        assert s[k + 1] == Render(rest, n)[0];
      }
    }
  }

  /** Prose positions give no match. */
  lemma {:induction false} ProseFinds(at: Matcher, b: bool, s: string, from: nat, t: string, rest: seq<Piece>, n: nat, e: nat)
    requires Agrees(at, b, s)
    requires from <= |s| && s[from..] == t + Render(rest, n) && e == from + |t|
    requires '[' !in t && WellFormed(rest) && (b && n == 0 ==> '!' !in t)
    ensures e <= |s| && s[from..e] == t && s[e..] == Render(rest, n)
    ensures forall k :: from <= k < e ==> at(k).None?
  {
    ProseQuiet(b, s, from, t, rest, n, e);
    forall k | from <= k < e ensures at(k).None? {
      QuietNoMatch(b, s, k);
      assert AtPos(at, k) == MatchAt(EmbeddedImage(b), s, k);
    }
  }

  /** At an image link, both patterns match the link. */
  lemma {:induction false} BareMatch(b: bool, s: string, i: nat, l: string, e: nat)
    requires e == i + |l| <= |s| && s[i..e] == l && IsImageLink(l)
    ensures MatchAt(EmbeddedImage(b), s, i).Some?
    ensures MatchAt(EmbeddedImage(b), s, i).value.end == e
    ensures MatchAt(EmbeddedImage(b), s, i).value.text == l
  {
    EmbeddedCoreLocal(s, i, l);
    EmbeddedCoreOpens(l, 0);
    CharOfCopy(s, i, l, 0, i);
  }

  /** At a `!` before an image link, the pattern with the `!?` prefix matches both. */
  lemma {:induction false} BangedMatch(s: string, i: nat, l: string, e: nat)
    requires e == i + 1 + |l| <= |s| && s[i] == '!' && s[i + 1..e] == l && IsImageLink(l)
    ensures MatchAt(EmbeddedImage(true), s, i).Some?
    ensures MatchAt(EmbeddedImage(true), s, i).value.end == e
    ensures MatchAt(EmbeddedImage(true), s, i).value.text == "!" + l
  {
    EmbeddedCoreLocal(s, i + 1, l);
    ConsSliceOf(s, i, e, l);
  }

  lemma {:induction false} ConsSliceOf(s: string, i: nat, e: nat, l: string)
    requires i < e <= |s| && s[i + 1..e] == l
    ensures s[i..e] == [s[i]] + l
  {
  }

  /** Before a link with `n` `!`s, the `!`s the pattern does not take are quiet. */
  lemma {:induction false} ImageBangsQuiet(b: bool, s: string, from: nat, l: string, n: nat, e: nat, i: nat)
    requires e == from + n + |l| <= |s| && s[from..e] == Bangs(n) + l
    requires IsImageLink(l) && i == from + Kept(b, n)
    ensures i <= |s| && s[from..i] == Bangs(Kept(b, n))
    ensures forall k :: from <= k < i ==> Quiet(b, s, k)
  {
    var m := from + n;
    BangsSlice(s, from, l, n, e, m);
    BangsPrefix(s, from, n, m, Kept(b, n), i);
    EmbeddedCoreOpens(l, 0);
    forall k | from <= k < i ensures Quiet(b, s, k) {
      BangAt(s, from, n, m, k);
      var k1 := k + 1;
      if k1 < m {
        BangAt(s, from, n, m, k1);
      } else {
        assert s[k1] == s[m..e][0];
      }
    }
  }

  lemma {:induction false} BangsSlice(s: string, from: nat, l: string, n: nat, e: nat, m: nat)
    requires e == from + n + |l| <= |s| && s[from..e] == Bangs(n) + l && m == from + n
    ensures s[from..m] == Bangs(n) && s[m..e] == l
  {
    var x := Bangs(n) + l;
    assert s[from..m] == x[..n];
    assert s[m..e] == x[n..];
  }

  lemma {:induction false} BangsPrefix(s: string, from: nat, n: nat, m: nat, k: nat, i: nat)
    requires m == from + n <= |s| && s[from..m] == Bangs(n) && k <= n && i == from + k
    ensures s[from..i] == Bangs(k)
  {
    forall t | 0 <= t < k ensures s[from..i][t] == Bangs(k)[t] {
      assert s[from..i][t] == s[from..m][t];
    }
  }

  lemma {:induction false} BangAt(s: string, from: nat, n: nat, m: nat, k: nat)
    requires m == from + n <= |s| && s[from..m] == Bangs(n) && from <= k < m
    ensures s[k] == '!'
  {
    assert s[k] == s[from..m][k - from];
  }

  /** The link of a rendered link starts at `i`. */
  lemma {:induction false} LinkSlice(s: string, from: nat, l: string, n: nat, e: nat, i: nat)
    requires e == from + n + |l| <= |s| && s[from..e] == Bangs(n) + l && i == from + n
    ensures s[i..e] == l
  {
    var x := Bangs(n) + l;
    assert s[i..e] == x[n..];
  }

  /** The last `!` of a rendered link stands at `i`, the link right after it. */
  lemma {:induction false} BangSlice(s: string, from: nat, l: string, n: nat, e: nat, i: nat)
    requires e == from + n + |l| <= |s| && s[from..e] == Bangs(n) + l && n > 0 && i + 1 == from + n
    ensures s[i] == '!' && s[i + 1..e] == l
  {
    var x := Bangs(n) + l;
    assert s[i] == x[n - 1];
    assert s[i + 1..e] == x[n..];
  }

  /** At a link with `n` `!`s, the matcher finds it at `i`, after the `!`s it keeps. */
  lemma {:induction false} ImageFinds(at: Matcher, b: bool, s: string, from: nat, l: string, n: nat, e: nat, i: nat)
    requires Agrees(at, b, s)
    requires e == from + n + |l| <= |s| && s[from..e] == Bangs(n) + l && i == from + Kept(b, n)
    requires IsImageLink(l)
    ensures i < e && |l| > 0 && l[0] == '['
    ensures s[from..i] == Bangs(Kept(b, n))
    ensures forall k :: from <= k < i ==> at(k).None?
    ensures at(i).Some? && at(i).value.end == e && at(i).value.text in {l, "!" + l}
  {
    EmbeddedCoreOpens(l, 0);
    ImageBangsQuiet(b, s, from, l, n, e, i);
    forall k | from <= k < i ensures at(k).None? {
      QuietNoMatch(b, s, k);
      assert AtPos(at, k) == MatchAt(EmbeddedImage(b), s, k);
    }
    assert AtPos(at, i) == MatchAt(EmbeddedImage(b), s, i);
    if b && n > 0 {
      BangedImageAt(s, from, l, n, e, i);
    } else {
      BareImageAt(b, s, from, l, n, e, i);
    }
  }

  lemma {:induction false} BangedImageAt(s: string, from: nat, l: string, n: nat, e: nat, i: nat)
    requires e == from + n + |l| <= |s| && s[from..e] == Bangs(n) + l && n > 0 && i + 1 == from + n
    requires IsImageLink(l)
    ensures MatchAt(EmbeddedImage(true), s, i).Some?
    ensures MatchAt(EmbeddedImage(true), s, i).value.end == e
    ensures MatchAt(EmbeddedImage(true), s, i).value.text == "!" + l
  {
    BangSlice(s, from, l, n, e, i);
    BangedMatch(s, i, l, e);
  }

  lemma {:induction false} BareImageAt(b: bool, s: string, from: nat, l: string, n: nat, e: nat, i: nat)
    requires e == from + n + |l| <= |s| && s[from..e] == Bangs(n) + l && i == from + n
    requires IsImageLink(l)
    ensures MatchAt(EmbeddedImage(b), s, i).Some?
    ensures MatchAt(EmbeddedImage(b), s, i).value.end == e
    ensures MatchAt(EmbeddedImage(b), s, i).value.text == l
  {
    LinkSlice(s, from, l, n, e, i);
    BareMatch(b, s, i, l, e);
  }

  /** The embedded-image matcher finds the links of a well-formed rendering. */
  lemma {:induction false} RenderFinds(at: Matcher, b: bool, s: string, from: nat, ps: seq<Piece>, n: nat)
    requires Agrees(at, b, s)
    requires from <= |s| && s[from..] == Render(ps, n)
    requires WellFormed(ps)
    requires b && n == 0 ==> ProseWithoutBang(ps)
    ensures Finds(at, b, s, from, ps, n)
    decreases |ps|, 1
  {
    if |ps| > 0 {
      match ps[0]
      case Prose(t) => ProseThenRest(at, b, s, from, t, ps, n, from + |t|);
      case Image(l) => ImageThenRest(at, b, s, from, l, ps, n, from + n + |l|);
    }
  }

  /** Prose first: the rest, from the end `e` of the prose, by induction. */
  lemma {:induction false} ProseThenRest(at: Matcher, b: bool, s: string, from: nat, t: string, ps: seq<Piece>, n: nat, e: nat)
    requires Agrees(at, b, s) && |ps| > 0 && ps[0] == Prose(t) && e == from + |t|
    requires from <= |s| && s[from..] == Render(ps, n)
    requires WellFormed(ps)
    requires b && n == 0 ==> ProseWithoutBang(ps)
    ensures Finds(at, b, s, from, ps, n)
    decreases |ps|, 0
  {
    WellFormedTail(ps, b, n);
    RenderProse(ps, t, n);
    TailOfCopy(s, from, t, Render(ps[1..], n), e);
    RenderFinds(at, b, s, e, ps[1..], n);
    ProseStep(at, b, s, from, t, ps, n, e);
  }

  /** A link first: the rest, from the end `e` of the link, by induction. */
  lemma {:induction false} ImageThenRest(at: Matcher, b: bool, s: string, from: nat, l: string, ps: seq<Piece>, n: nat, e: nat)
    requires Agrees(at, b, s) && |ps| > 0 && ps[0] == Image(l) && e == from + n + |l|
    requires from <= |s| && s[from..] == Render(ps, n)
    requires WellFormed(ps)
    requires b && n == 0 ==> ProseWithoutBang(ps)
    ensures Finds(at, b, s, from, ps, n)
    decreases |ps|, 0
  {
    WellFormedTail(ps, b, n);
    RenderImage(ps, l, n);
    TailOfCopy(s, from, Bangs(n) + l, Render(ps[1..], n), e);
    RenderFinds(at, b, s, e, ps[1..], n);
    ImageStep(at, b, s, from, l, ps, n, e, from + Kept(b, n));
  }

  lemma RenderProse(ps: seq<Piece>, t: string, n: nat)
    requires |ps| > 0 && ps[0] == Prose(t)
    ensures Render(ps, n) == t + Render(ps[1..], n)
  {
  }

  /** Prose, then the rest found: all found. */
  lemma ProseStep(at: Matcher, b: bool, s: string, from: nat, t: string, ps: seq<Piece>, n: nat, e: nat)
    requires Agrees(at, b, s) && |ps| > 0 && ps[0] == Prose(t) && e == from + |t|
    requires from <= |s| && s[from..] == t + Render(ps[1..], n)
    requires '[' !in t && WellFormed(ps[1..]) && (b && n == 0 ==> '!' !in t)
    ensures Finds(at, b, s, e, ps[1..], n) ==> Finds(at, b, s, from, ps, n)
  {
    ProseFinds(at, b, s, from, t, ps[1..], n, e);
    FindsProse(at, b, s, from, t, ps, n, e);
  }

  /** A link, then the rest found: all found. */
  lemma ImageStep(at: Matcher, b: bool, s: string, from: nat, l: string, ps: seq<Piece>, n: nat, e: nat, i: nat)
    requires Agrees(at, b, s) && |ps| > 0 && ps[0] == Image(l)
    requires e == from + n + |l| <= |s| && s[from..e] == Bangs(n) + l && i == from + Kept(b, n)
    requires IsImageLink(l)
    ensures Finds(at, b, s, e, ps[1..], n) ==> Finds(at, b, s, from, ps, n)
  {
    ImageFinds(at, b, s, from, l, n, e, i);
    FindsImage(at, b, s, from, l, ps, n, e, i);
  }

  /** The pieces after the first of a well-formed note are well formed, and the first
      one, when it is prose, has no `[` (and no `!` when `b` and no `!`s). */
  lemma WellFormedTail(ps: seq<Piece>, b: bool, n: nat)
    requires |ps| > 0 && WellFormed(ps) && (b && n == 0 ==> ProseWithoutBang(ps))
    ensures WellFormed(ps[1..]) && (b && n == 0 ==> ProseWithoutBang(ps[1..]))
    ensures ps[0].Prose? ==> '[' !in ps[0].text && (b && n == 0 ==> '!' !in ps[0].text)
    ensures ps[0].Image? ==> IsImageLink(ps[0].link)
  {
    forall i | 0 <= i < |ps| - 1 ensures ps[1..][i] == ps[i + 1] { }
  }

  lemma {:induction false} FindsProse(at: Matcher, b: bool, s: string, from: nat, t: string, ps: seq<Piece>, n: nat, e: nat)
    requires |ps| > 0 && ps[0] == Prose(t) && e == from + |t|
    requires e <= |s| && s[from..e] == t
    requires forall k :: from <= k < e ==> at(k).None?
    ensures Finds(at, b, s, e, ps[1..], n) ==> Finds(at, b, s, from, ps, n)
  {
  }

  lemma {:induction false} FindsImage(at: Matcher, b: bool, s: string, from: nat, l: string, ps: seq<Piece>, n: nat, e: nat, i: nat)
    requires |ps| > 0 && ps[0] == Image(l) && e == from + n + |l| && i == from + Kept(b, n)
    requires i < e <= |s| && |l| > 0 && l[0] == '['
    requires s[from..i] == Bangs(Kept(b, n))
    requires forall k :: from <= k < i ==> at(k).None?
    requires at(i).Some? && at(i).value.end == e && at(i).value.text in {l, "!" + l}
    ensures Finds(at, b, s, e, ps[1..], n) ==> Finds(at, b, s, from, ps, n)
  {
  }

  /** On a link, with or without its `!`, the callbacks give the link without or with
      one `!`. */
  lemma CallbackOnLink(drop: bool, m: Match, l: string)
    requires |l| > 0 && l[0] == '[' && (m.text == l || m.text == "!" + l)
    ensures Callback(drop, m) == if drop then l else "!" + l
  {
    if m.text == "!" + l {
      assert m.text[1..] == l;
    }
  }

  lemma BangsThenLink(b: bool, drop: bool, n: nat, l: string, link: string, rest: string)
    requires link == if drop then l else "!" + l
    ensures Bangs(Kept(b, n)) + (link + rest) == Bangs(NewBangs(b, drop, n)) + l + rest
  {
    assert Bangs(Kept(b, n) + 1) == Bangs(Kept(b, n)) + "!";
  }

  /** Replacing the embedded-image matches of a well-formed rendering gives each link
      `NewBangs` `!`s and leaves the prose alone. */
  lemma ScanWhole(b: bool, drop: bool, ps: seq<Piece>, n: nat)
    requires WellFormed(ps)
    requires b && n == 0 ==> ProseWithoutBang(ps)
    ensures ReplaceAll(EmbeddedImage(b), Render(ps, n), if drop then DropBang else AddBang)
            == Render(ps, NewBangs(b, drop, n))
  {
    var s := Render(ps, n);
    var at := EmbeddedAt(b, s);
    assert s[0..] == s;
    EmbeddedAtAgrees(b, s);
    RenderFinds(at, b, s, 0, ps, n);
    SweepFinds(at, b, drop, s, 0, ps, n);
    SweepIsScan(at, b, drop, s, 0);
  }
  // ---------------------------------------------------------------------------
  // Round trips.

  /** Opening a note whose image links all have a `!` and then unloading gives back
      the note. */
  lemma StripThenRestore(ps: seq<Piece>)
    requires WellFormed(ps)
    ensures StripBangs(Render(ps, 1)) == Render(ps, 0)
    ensures RestoreBangsAsWritten(StripBangs(Render(ps, 1))) == Render(ps, 1)
  {
    ScanWhole(true, true, ps, 1);
    ScanWhole(false, false, ps, 0);
  }

  /** As written, unloading gives a link that already has a `!` a second one. */
  lemma RestoreAsWrittenDoublesBangs(ps: seq<Piece>)
    requires WellFormed(ps)
    ensures RestoreBangsAsWritten(Render(ps, 1)) == Render(ps, 2)
  {
    ScanWhole(false, false, ps, 1);
  }

  /** The note `![[a.png]]` becomes `!![[a.png]]` when unloaded as written. */
  lemma RestoreAsWrittenExample()
    ensures RestoreBangsAsWritten("![[a.png]]") == "!![[a.png]]"
  {
    var l := "[[a.png]]";
    ExampleLinkIsImage(l);
    var ps := [Image(l)];
    ExampleRender(l, ps);
    RestoreAsWrittenDoublesBangs(ps);
  }

  lemma ExampleLinkIsImage(l: string)
    requires l == "[[a.png]]"
    ensures IsImageLink(l)
  {
    var u := "a.png";
    assert l[2] == 'a' && l[3] == '.' && l[4] == 'p' && l[5] == 'n' && l[6] == 'g' && l[7] == ']';
    assert FindChar(l, 2, ']') == 7;
    assert l[..2] == "[[" && l[7..] == "]]" && l[2..7] == u;
    assert ExtensionAt(u, 2, ImageExtensions[2]) by {
      assert u[2..5] == "png";
    }
    AnyExtensionAtIff(u, 2, ImageExtensions);
    assert ImageExtAt(u, 1);
  }

  lemma ExampleRender(l: string, ps: seq<Piece>)
    requires l == "[[a.png]]" && ps == [Image(l)] && IsImageLink(l)
    ensures WellFormed(ps) && Render(ps, 1) == "![[a.png]]" && Render(ps, 2) == "!![[a.png]]"
  {
    assert Bangs(1) == "!";
    assert Bangs(2) == "!!";
  }

  /** With the `!?` prefix, unloading leaves links that have a `!` alone, so a second
      unload changes nothing. */
  lemma RestoreKeepsBangedLinks(ps: seq<Piece>)
    requires WellFormed(ps)
    ensures RestoreBangs(Render(ps, 1)) == Render(ps, 1)
    ensures RestoreBangs(RestoreBangs(Render(ps, 0))) == RestoreBangs(Render(ps, 0)) || !ProseWithoutBang(ps)
  {
    ScanWhole(true, false, ps, 1);
    if ProseWithoutBang(ps) {
      ScanWhole(true, false, ps, 0);
    }
  }

  /** With the `!?` prefix, the round trip holds as well, for prose without `!`. */
  lemma StripThenRestoreFixed(ps: seq<Piece>)
    requires WellFormed(ps) && ProseWithoutBang(ps)
    ensures RestoreBangs(StripBangs(Render(ps, 1))) == Render(ps, 1)
  {
    ScanWhole(true, true, ps, 1);
    ScanWhole(true, false, ps, 0);
  }
}
