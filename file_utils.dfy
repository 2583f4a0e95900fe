// fileUtils: file-name slugs, extensions and the image-extension test.

module FileUtils {
  import opened Text
  import Patterns

  /** `[a-z0-9]`, the characters a slug keeps. */
  predicate IsSlugChar(c: char) { IsLower(c) || IsDigit(c) }

  predicate SlugAlphabet(s: string)
  {
    forall i :: 0 <= i < |s| ==> IsSlugChar(s[i]) || s[i] == '-'
  }

  ghost predicate NoDoubleDash(s: string)
  {
    forall i, j :: 0 <= i < j < |s| && j == i + 1 ==> !(s[i] == '-' && s[j] == '-')
  }

  /** Drops the run of non-slug characters at the front of `s`. */
  function SkipSeparators(s: string): (r: string)
    ensures |r| <= |s| && r == s[|s| - |r|..]
    ensures r == [] || IsSlugChar(r[0])
  {
    if |s| > 0 && !IsSlugChar(s[0]) then
      var r := SkipSeparators(s[1..]);
      SuffixOfRest(s, r);
      r
    else s
  }

  /** A suffix of `s[1..]` is a suffix of `s`. */
  lemma SuffixOfRest(s: string, r: string)
    requires |s| > 0 && |r| <= |s| - 1 && r == s[1..][|s| - 1 - |r|..]
    ensures r == s[|s| - |r|..]
  {
  }

  /** `.replace(/[^a-z0-9]+/g, '-')`: every run of other characters becomes one dash. */
  function CollapseSeparators(s: string): string
    decreases |s|
  {
    if |s| == 0 then ""
    else if IsSlugChar(s[0]) then [s[0]] + CollapseSeparators(s[1..])
    else "-" + CollapseSeparators(SkipSeparators(s[1..]))
  }

  /** What collapsing produces: slug characters and single dashes, starting like its input. */
  ghost predicate CollapsedFrom(s: string, r: string)
  {
    SlugAlphabet(r) && NoDoubleDash(r)
    && (|s| > 0 <==> |r| > 0)
    && (|s| > 0 && IsSlugChar(s[0]) ==> r[0] == s[0])
    && (|s| > 0 && !IsSlugChar(s[0]) ==> r[0] == '-')
  }

  lemma {:induction false} CollapseShape(s: string)
    ensures CollapsedFrom(s, CollapseSeparators(s))
    decreases |s|
  {
    if |s| > 0 {
      if IsSlugChar(s[0]) {
        CollapseShape(s[1..]);
        CollapseKeepsSlug(s);
      } else {
        CollapseShape(SkipSeparators(s[1..]));
        CollapseDashesRun(s);
      }
    }
  }

  lemma CollapseKeepsSlug(s: string)
    requires |s| > 0 && IsSlugChar(s[0])
    requires CollapsedFrom(s[1..], CollapseSeparators(s[1..]))
    ensures CollapsedFrom(s, CollapseSeparators(s))
  {
    ConsShape(s[0], CollapseSeparators(s[1..]));
  }

  lemma CollapseDashesRun(s: string)
    requires |s| > 0 && !IsSlugChar(s[0])
    requires CollapsedFrom(SkipSeparators(s[1..]), CollapseSeparators(SkipSeparators(s[1..])))
    ensures CollapsedFrom(s, CollapseSeparators(s))
  {
    ConsShape('-', CollapseSeparators(SkipSeparators(s[1..])));
  }

  /** A slug character, or a dash before anything but a dash, keeps a slug a slug. */
  lemma ConsShape(c: char, rest: string)
    requires IsSlugChar(c) || (c == '-' && (rest == [] || rest[0] != '-'))
    requires SlugAlphabet(rest) && NoDoubleDash(rest)
    ensures SlugAlphabet([c] + rest) && NoDoubleDash([c] + rest)
  {
    var r := [c] + rest;
    assert forall i :: 1 <= i < |r| ==> r[i] == rest[i - 1];
  }

  /** `.replace(/^-+/, '')`. */
  function DropLeadingDashes(s: string): (r: string)
    ensures |r| <= |s| && r == s[|s| - |r|..]
    ensures r == [] || r[0] != '-'
  {
    if |s| > 0 && s[0] == '-' then DropLeadingDashes(s[1..]) else s
  }

  /** `.replace(/-+$/, '')`. */
  function DropTrailingDashes(s: string): (r: string)
    ensures |r| <= |s| && r == s[..|r|]
    ensures r == [] || r[|r| - 1] != '-'
  {
    if |s| > 0 && s[|s| - 1] == '-' then DropTrailingDashes(s[..|s| - 1]) else s
  }

  /** `.substring(0, n)`. */
  function Take(s: string, n: nat): string
  {
    if |s| <= n then s else s[..n]
  }

  /** `sanitizeFileName` as written: lower-case, dash runs of other characters, strip
      dashes at both ends, then cut to 50 characters. */
  function SanitizeFileName(name: string): (r: string)
    ensures |r| <= 50
    ensures SlugAlphabet(r) && NoDoubleDash(r)
    ensures r == [] || r[0] != '-'
    ensures |DropTrailingDashes(DropLeadingDashes(CollapseSeparators(ToLower(name))))| <= 50 ==>
              r == [] || r[|r| - 1] != '-'
  {
    var c := CollapseSeparators(ToLower(name));
    CollapseShape(ToLower(name));
    StripThenCutShape(c);
    Take(DropTrailingDashes(DropLeadingDashes(c)), 50)
  }

  lemma StripThenCutShape(c: string)
    requires SlugAlphabet(c) && NoDoubleDash(c)
    ensures var r := Take(DropTrailingDashes(DropLeadingDashes(c)), 50);
            |r| <= 50 && SlugAlphabet(r) && NoDoubleDash(r) && (r == [] || r[0] != '-')
  {
    var d := DropLeadingDashes(c);
    LeadingKeepsSlug(c);
    TrailingKeepsSlug(d);
    TakeKeepsSlug(DropTrailingDashes(d), 50);
  }

  lemma CollapseSlugHead(c: char, w: string)
    requires IsSlugChar(c)
    ensures CollapseSeparators([c] + w) == [c] + CollapseSeparators(w)
  {
    assert ([c] + w)[1..] == w;
  }

  /** Collapsing leaves a leading slug untouched. */
  lemma {:induction false} CollapseSlugPrefix(u: string, t: string)
    requires forall i :: 0 <= i < |u| ==> IsSlugChar(u[i])
    ensures CollapseSeparators(u + t) == u + CollapseSeparators(t)
    decreases |u|
  {
    if |u| == 0 {
      assert u + t == t;
    } else {
      var v := u[1..];
      var w := v + t;
      assert u + t == [u[0]] + w;
      CollapseSlugHead(u[0], w);
      CollapseSlugPrefix(v, t);
      ConsSlice(u, CollapseSeparators(t));
    }
  }

  /** The cut comes after the dash stripping, so a dash that lands on the 50th position
      stays: 49 slug characters, a blank and one more letter give a name ending in `-`. */
  lemma SanitizeKeepsTrailingDash(u: string)
    requires |u| == 49 && forall i :: 0 <= i < |u| ==> IsSlugChar(u[i])
    ensures SanitizeFileName(u + " b") == u + "-"
    ensures SanitizeFileName(u + " b")[49] == '-'
  {
    CollapseSlugThenBlank(u);
    var c := u + "-b";
    assert c[0] == u[0] && c[|c| - 1] == 'b';
    StripKeepsUndashedEnds(c);
    PrefixPlusOne(u, "-b");
  }

  lemma StripKeepsUndashedEnds(c: string)
    requires |c| > 0 && c[0] != '-' && c[|c| - 1] != '-'
    ensures DropTrailingDashes(DropLeadingDashes(c)) == c
  {
    assert DropLeadingDashes(c) == c;
  }

  lemma CollapseSlugThenBlank(u: string)
    requires forall i :: 0 <= i < |u| ==> IsSlugChar(u[i])
    ensures CollapseSeparators(ToLower(u + " b")) == u + "-b"
  {
    LowerSlugThenBlank(u);
    CollapseSlugPrefix(u, " b");
    CollapseSeparatorThenSlug(' ', 'b');
  }

  lemma LowerSlugThenBlank(u: string)
    requires forall i :: 0 <= i < |u| ==> IsSlugChar(u[i])
    ensures ToLower(u + " b") == u + " b"
  {
    var s := u + " b";
    forall i | 0 <= i < |s|
      ensures LowerChar(s[i]) == s[i]
    {
      if i < |u| {
        assert s[i] == u[i];
      }
    }
  }

  /** A separator then a slug character collapse to a dash then that character. */
  lemma CollapseSeparatorThenSlug(c: char, d: char)
    requires !IsSlugChar(c) && IsSlugChar(d)
    ensures CollapseSeparators([c, d]) == ['-', d]
  {
    assert [c, d][1..] == [d];
    assert SkipSeparators([d]) == [d];
    assert CollapseSeparators([d]) == [d] by {
      assert [d][1..] == [];
    }
  }

  /** The evidently intended slug: cut to 50 characters first, then strip the dashes, so
      that neither end is a dash. */
  function SanitizeFileNameTrimmed(name: string): (r: string)
    ensures |r| <= 50
    ensures SlugAlphabet(r) && NoDoubleDash(r)
    ensures r == [] || (r[0] != '-' && r[|r| - 1] != '-')
  {
    var c := CollapseSeparators(ToLower(name));
    CollapseShape(ToLower(name));
    CutThenStripShape(c);
    DropTrailingDashes(Take(DropLeadingDashes(c), 50))
  }

  lemma CutThenStripShape(c: string)
    requires SlugAlphabet(c) && NoDoubleDash(c)
    ensures var r := DropTrailingDashes(Take(DropLeadingDashes(c), 50));
            |r| <= 50 && SlugAlphabet(r) && NoDoubleDash(r) && (r == [] || (r[0] != '-' && r[|r| - 1] != '-'))
  {
    var d := DropLeadingDashes(c);
    LeadingKeepsSlug(c);
    TakeKeepsSlug(d, 50);
    TrailingKeepsSlug(Take(d, 50));
  }

  lemma LeadingKeepsSlug(c: string)
    requires SlugAlphabet(c) && NoDoubleDash(c)
    ensures SlugAlphabet(DropLeadingDashes(c)) && NoDoubleDash(DropLeadingDashes(c))
  {
    var d := DropLeadingDashes(c);
    SliceKeepsSlug(c, |c| - |d|, |c|);
  }

  lemma TrailingKeepsSlug(c: string)
    requires SlugAlphabet(c) && NoDoubleDash(c)
    ensures SlugAlphabet(DropTrailingDashes(c)) && NoDoubleDash(DropTrailingDashes(c))
  {
    SliceKeepsSlug(c, 0, |DropTrailingDashes(c)|);
  }

  lemma TakeKeepsSlug(c: string, n: nat)
    requires SlugAlphabet(c) && NoDoubleDash(c)
    ensures SlugAlphabet(Take(c, n)) && NoDoubleDash(Take(c, n))
    ensures |Take(c, n)| <= n && (|c| > 0 && n > 0 ==> Take(c, n)[0] == c[0])
  {
    SliceKeepsSlug(c, 0, |Take(c, n)|);
  }

  lemma SliceKeepsSlug(s: string, a: nat, b: nat)
    requires a <= b <= |s| && SlugAlphabet(s) && NoDoubleDash(s)
    ensures SlugAlphabet(s[a..b]) && NoDoubleDash(s[a..b])
  {
    var t := s[a..b];
    assert forall i :: 0 <= i < |t| ==> t[i] == s[a + i];
  }

  /** `getFileExtension`: the text after the last dot, lower-cased (the whole name when it
      has no dot). */
  function GetFileExtension(name: string): (r: string)
    ensures '.' !in r
    ensures |r| <= |name|
    ensures '.' !in name ==> r == ToLower(name)
    ensures '.' in name ==>
              exists k :: 0 <= k < |name| && name[k] == '.' && '.' !in name[k + 1..] && r == ToLower(name[k + 1..])
  {
    AfterLastDot(name);
    ToLower(AfterLast(name, '.'))
  }

  /** The last part of a split on `.` is the whole name when it has no dot, and otherwise
      the text after a dot that has no dot after it. */
  lemma AfterLastDot(name: string)
    ensures '.' !in AfterLast(name, '.') && |AfterLast(name, '.')| <= |name|
    ensures '.' !in name ==> AfterLast(name, '.') == name
    ensures '.' in name ==>
              var k := |name| - |AfterLast(name, '.')| - 1;
              0 <= k < |name| && name[k] == '.' && name[k + 1..] == AfterLast(name, '.')
  {
    AfterLastIsSuffix(name, '.');
  }

  /** `isImageFile`: `/^(jpe?g|png|gif|svg|webp)$/i` on the extension. */
  predicate IsImageFile(name: string)
  {
    GetFileExtension(name) in Patterns.ImageExtensions
  }

  /** A dotted name that `isImageFile` accepts carries an extension the editor's link
      patterns recognise. */
  lemma ImageFileHasLinkExtension(name: string)
    requires IsImageFile(name) && '.' in name
    ensures Patterns.HasImageExt(name, 0)
  {
    var k := DotOfExtension(name);
    DottedImageExtension(name, k, GetFileExtension(name));
  }

  /** The extension is spelled right after a dot of the name. */
  lemma DotOfExtension(name: string) returns (k: nat)
    requires '.' in name
    ensures k < |name| && name[k] == '.' && Patterns.ExtensionAt(name, k + 1, GetFileExtension(name))
  {
    var a := AfterLast(name, '.');
    AfterLastDot(name);
    k := |name| - |a| - 1;
    assert name[k + 1..k + 1 + |a|] == a;
  }

  lemma DottedImageExtension(u: string, k: nat, e: string)
    requires k < |u| && u[k] == '.' && e in Patterns.ImageExtensions && Patterns.ExtensionAt(u, k + 1, e)
    ensures Patterns.HasImageExt(u, 0)
  {
    Patterns.AnyExtensionAtIff(u, k + 1, Patterns.ImageExtensions);
    assert Patterns.ImageExtAt(u, k);
    Patterns.HasImageExtIff(u, 0);
  }
}
