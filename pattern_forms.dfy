// The text each matcher of `Patterns` accepts, written as the concatenation of
// the parts of its regular expression.  For every matcher, a soundness lemma
// says that a match is such a text with the captures as its parts, and a
// completeness lemma says that such a text, wherever it stands, is matched
// there with those captures; together they say exactly when the matcher matches
// and what it captures.

module PatternForms {
  import opened Common
  import opened Text
  import opened Patterns

  // ----- occurrences of concatenations -----

  /** Two adjacent occurrences are an occurrence of the concatenation. */
  lemma OccursJoin(s: string, i: nat, a: string, b: string)
    requires OccursAt(s, a, i) && OccursAt(s, b, i + |a|)
    ensures OccursAt(s, a + b, i)
  {
    assert s[i..i + |a + b|] == s[i..i + |a|] + s[i + |a|..i + |a| + |b|];
  }

  /** An occurrence of a concatenation is an occurrence of each part, side by side. */
  lemma OccursSplit(s: string, i: nat, a: string, b: string)
    requires OccursAt(s, a + b, i)
    ensures OccursAt(s, a, i) && OccursAt(s, b, i + |a|)
  {
    SliceOfSlice(s, i, |a + b|, 0, |a|, i, i + |a|);
    SliceOfSlice(s, i, |a + b|, |a|, |a + b|, i + |a|, i + |a + b|);
    assert (a + b)[0..|a|] == a && (a + b)[|a|..|a + b|] == b;
  }

  /** `OccursSplit` with the position of the second part given by name. */
  lemma OccursSplitAt(s: string, i: nat, a: string, b: string, p: nat)
    requires OccursAt(s, a + b, i) && p == i + |a|
    ensures OccursAt(s, a, i) && OccursAt(s, b, p)
  {
    OccursSplit(s, i, a, b);
  }

  /** `OccursJoin` with the position of the second part given by name. */
  lemma OccursJoinAt(s: string, i: nat, a: string, b: string, p: nat)
    requires OccursAt(s, a, i) && OccursAt(s, b, p) && p == i + |a|
    ensures OccursAt(s, a + b, i)
  {
    OccursJoin(s, i, a, b);
  }

  /** No character of an occurrence is `c` when its text holds none. */
  lemma OccursAvoids(s: string, i: nat, t: string, c: char)
    requires OccursAt(s, t, i) && c !in t
    ensures forall j :: i <= j < i + |t| ==> s[j] != c
  {
    forall j | i <= j < i + |t| ensures s[j] != c {
      CopyChar(s, i, t, j - i, j);
    }
  }

  /** Every character of an occurrence of a digit string is a digit. */
  lemma OccursDigits(s: string, i: nat, t: string)
    requires OccursAt(s, t, i) && AllDigits(t)
    ensures forall j :: i <= j < i + |t| ==> IsDigit(s[j])
  {
    forall j | i <= j < i + |t| ensures IsDigit(s[j]) {
      CopyChar(s, i, t, j - i, j);
    }
  }

  // ----- the resize and decorator markdown pattern -----

  /** `|size` when the link carries a size, nothing when it does not. */
  function SizeGroup(size: string): string
  {
    if size == "" then "" else "|" + size
  }

  /** `[alt](url)` or `[alt|size](url)`. */
  function SizedMarkdownText(alt: string, size: string, url: string): string
  {
    "[" + alt + SizeGroup(size) + "](" + url + ")"
  }

  /** `[^\]|]*` for the label, `\d+` for the size, `[^)]` for the url, and with
      `needExt` an image extension in the url after its first character. */
  predicate SizedMarkdownParts(alt: string, size: string, url: string, needExt: bool)
  {
    ']' !in alt && '|' !in alt && AllDigits(size) && ')' !in url && (needExt ==> HasImageExt(url, 1))
  }

  /** A match of the markdown resize pattern is a link `[alt|size](url)` whose parts
      are the captures. */
  lemma SizedMarkdownSound(s: string, i: nat, needExt: bool)
    requires i < |s|
    ensures var r := SizedMarkdownAt(s, i, needExt);
            r.Some? ==> var m := r.value;
                        SizedMarkdownParts(m.alt, m.size, m.target, needExt)
                        && m.text == SizedMarkdownText(m.alt, m.size, m.target)
                        && m == Match(i, i + |m.text|, m.text, m.alt, m.size, m.target, "", false)
  {
    if s[i] == '[' {
      var q := FindEither(s, i + 1, ']', '|');
      if q < |s| {
        LabelStep(s, i, q, needExt);
        if s[q] == '|' {
          SizeStep(s, i, q, needExt);
          var d := DigitsEnd(s, q + 1);
          if d > q + 1 && d + 1 < |s| && s[d] == ']' && s[d + 1] == '(' {
            DigitsStep(s, i, q, d, needExt);
            UrlTailSound(s, i, q, d, s[q + 1..d], needExt);
          } else {
            DigitsNone(s, i, q, d, needExt);
          }
        } else if q + 1 < |s| && s[q + 1] == '(' {
          PlainStep(s, i, q, needExt);
          UrlTailSound(s, i, q, q, "", needExt);
        } else {
          LabelNone(s, i, q, needExt);
        }
      }
    } else {
      assert SizedMarkdownAt(s, i, needExt).None?;
    }
  }

  lemma DigitsNone(s: string, i: nat, q: nat, d: nat, needExt: bool)
    requires i < q < d <= |s| && !(d > q + 1 && d + 1 < |s| && s[d] == ']' && s[d + 1] == '(')
    ensures SizedAfterDigits(s, i, q, d, needExt).None?
  {
  }

  lemma LabelNone(s: string, i: nat, q: nat, needExt: bool)
    requires i < q < |s| && s[q] != '|' && !(q + 1 < |s| && s[q + 1] == '(')
    ensures SizedAfterLabel(s, i, q, needExt).None?
  {
  }

  /** The url part of the resize pattern, once `[alt|size](` has run up to `d + 2`. */
  lemma UrlTailSound(s: string, i: nat, q: nat, d: nat, size: string, needExt: bool)
    requires i < q <= d && d + 1 < |s| && s[i] == '[' && s[d] == ']' && s[d + 1] == '('
    requires forall j :: i + 1 <= j < q ==> s[j] != ']' && s[j] != '|'
    requires size == "" ==> d == q
    requires size != "" ==> q + 1 < d && s[q] == '|' && s[q + 1..d] == size && forall j :: q + 1 <= j < d ==> IsDigit(s[j])
    ensures var r := UrlTail(s, i, s[i + 1..q], size, d + 2, needExt);
            r.Some? ==> var m := r.value;
                        SizedMarkdownParts(m.alt, m.size, m.target, needExt)
                        && m.text == SizedMarkdownText(m.alt, m.size, m.target)
                        && m == Match(i, i + |m.text|, m.text, m.alt, m.size, m.target, "", false)
  {
    if UrlTail(s, i, s[i + 1..q], size, d + 2, needExt).Some? {
      UrlTailSome(s, i, q, d, size, needExt);
    }
  }

  /** The url tail read up to the first `)`: the whole match spells the link. */
  lemma UrlTailSome(s: string, i: nat, q: nat, d: nat, size: string, needExt: bool)
    requires i < q <= d && d + 1 < |s| && s[i] == '[' && s[d] == ']' && s[d + 1] == '('
    requires forall j :: i + 1 <= j < q ==> s[j] != ']' && s[j] != '|'
    requires size == "" ==> d == q
    requires size != "" ==> q + 1 < d && s[q] == '|' && s[q + 1..d] == size && forall j :: q + 1 <= j < d ==> IsDigit(s[j])
    requires UrlTail(s, i, s[i + 1..q], size, d + 2, needExt).Some?
    ensures var r := UrlTail(s, i, s[i + 1..q], size, d + 2, needExt);
            r.Some? ==> var m := r.value;
                        SizedMarkdownParts(m.alt, m.size, m.target, needExt)
                        && m.text == SizedMarkdownText(m.alt, m.size, m.target)
                        && m == Match(i, i + |m.text|, m.text, m.alt, m.size, m.target, "", false)
  {
    var u := d + 2;
    UrlTailBridge(s, i, s[i + 1..q], size, d, u, needExt);
    var c := FindChar(s, u, ')');
    UrlTailFound(s, i, s[i + 1..q], size, u, c, needExt);
    UrlTailRead(s, i, q, d, u, c, size, needExt);
  }

  lemma UrlTailBridge(s: string, i: nat, alt: string, size: string, d: nat, u: nat, needExt: bool)
    requires u == d + 2 && i < u <= |s|
    ensures UrlTail(s, i, alt, size, u, needExt) == UrlTail(s, i, alt, size, d + 2, needExt)
  {
  }

  lemma UrlTailFound(s: string, i: nat, alt: string, size: string, u: nat, c: nat, needExt: bool)
    requires i < u <= |s| && c == FindChar(s, u, ')') && UrlTail(s, i, alt, size, u, needExt).Some?
    ensures c < |s| && (needExt ==> HasImageExt(s[u..c], 1))
  {
  }

  lemma UrlTailRead(s: string, i: nat, q: nat, d: nat, u: nat, c: nat, size: string, needExt: bool)
    requires i < q <= d && d + 1 < |s| && u == d + 2 && s[i] == '[' && s[d] == ']' && s[d + 1] == '('
    requires forall j :: i + 1 <= j < q ==> s[j] != ']' && s[j] != '|'
    requires size == "" ==> d == q
    requires size != "" ==> q + 1 < d && s[q] == '|' && s[q + 1..d] == size && forall j :: q + 1 <= j < d ==> IsDigit(s[j])
    requires c == FindChar(s, u, ')') && c < |s| && (needExt ==> HasImageExt(s[u..c], 1))
    ensures SizedMarkdownParts(s[i + 1..q], size, s[u..c], needExt)
    ensures var t := SizedMarkdownText(s[i + 1..q], size, s[u..c]);
            c + 1 == i + |t| && UrlTail(s, i, s[i + 1..q], size, u, needExt) == Some(Match(i, c + 1, t, s[i + 1..q], size, s[u..c], "", false))
  {
    UrlTailStep(s, i, s[i + 1..q], size, u, c, needExt);
    SizedText(s, i, q, d, u, c, size);
  }

  /** The characters from `i` to `c` spell the link whose parts they hold. */
  lemma SizedText(s: string, i: nat, q: nat, d: nat, u: nat, c: nat, size: string)
    requires i < q <= d && u == d + 2 && u <= c < |s| && s[i] == '[' && s[d] == ']' && s[d + 1] == '(' && s[c] == ')'
    requires size == "" ==> d == q
    requires size != "" ==> q + 1 < d && s[q] == '|' && s[q + 1..d] == size
    ensures s[i..c + 1] == SizedMarkdownText(s[i + 1..q], size, s[u..c])
  {
    var g := SizeGroup(size);
    SizeGroupAt(s, q, d, size);
    SizedMarkdownJoin(s, i, s[i + 1..q], g, s[u..c], q, d, u, c);
  }

  /** The size group between `q` and `d`. */
  lemma SizeGroupAt(s: string, q: nat, d: nat, size: string)
    requires q <= d <= |s|
    requires size == "" ==> d == q
    requires size != "" ==> q + 1 < d && s[q] == '|' && s[q + 1..d] == size
    ensures OccursAt(s, SizeGroup(size), q) && d == q + |SizeGroup(size)|
  {
    if size != "" {
      assert OccursAt(s, "|", q);
      OccursJoinAt(s, q, "|", size, q + 1);
    }
  }

  /** The parts of a link `[alt|size](url)` laid side by side, the label ending at `q`,
      the `](` at `d`, the url from `u` to the `)` at `c`, spell the link. */
  lemma SizedMarkdownJoin(s: string, i: nat, alt: string, g: string, url: string, q: nat, d: nat, u: nat, c: nat)
    requires q == i + 1 + |alt| && d == q + |g| && u == d + 2 && c == u + |url| && c < |s|
    requires s[i] == '[' && s[i + 1..q] == alt && OccursAt(s, g, q) && s[d] == ']' && s[d + 1] == '('
    requires s[u..c] == url && s[c] == ')'
    ensures s[i..c + 1] == "[" + alt + g + "](" + url + ")"
  {
    assert OccursAt(s, "[", i) && OccursAt(s, "](", d) && OccursAt(s, ")", c);
    OccursJoinAt(s, i, "[", alt, i + 1);
    OccursJoinAt(s, i, "[" + alt, g, q);
    OccursJoinAt(s, i, "[" + alt + g, "](", d);
    OccursJoinAt(s, i, "[" + alt + g + "](", url, u);
    OccursJoinAt(s, i, "[" + alt + g + "](" + url, ")", c);
  }

  /** A link `[alt|size](url)` whose parts the pattern allows is matched where it
      stands, with its parts as the captures. */
  lemma SizedMarkdownComplete(s: string, i: nat, alt: string, size: string, url: string, needExt: bool)
    requires SizedMarkdownParts(alt, size, url, needExt)
    requires OccursAt(s, SizedMarkdownText(alt, size, url), i)
    ensures var t := SizedMarkdownText(alt, size, url);
            i < |s| && SizedMarkdownAt(s, i, needExt) == Some(Match(i, i + |t|, t, alt, size, url, "", false))
  {
    var g := SizeGroup(size);
    var q := i + 1 + |alt|;
    var d := q + |g|;
    var u := d + 2;
    var c := u + |url|;
    SizedMarkdownEnds(s, i, alt, size, url, c);
    SizedMarkdownRead(s, i, q, d, u, c, alt, size, url, needExt);
  }

  /** A link `[alt|size](url)` at `i`, its parts ending at `q`, `d`, `u` and `c`, is read
      up to the `)` at `c`. */
  lemma SizedMarkdownRead(s: string, i: nat, q: nat, d: nat, u: nat, c: nat,
                          alt: string, size: string, url: string, needExt: bool)
    requires SizedMarkdownParts(alt, size, url, needExt)
    requires q == i + 1 + |alt| && d == q + |SizeGroup(size)| && u == d + 2 && c == u + |url|
    requires OccursAt(s, SizedMarkdownText(alt, size, url), i)
    ensures c < |s| && SizedMarkdownAt(s, i, needExt) == Some(Match(i, c + 1, s[i..c + 1], alt, size, url, "", false))
  {
    SizedLabelIn(s, i, q, d, u, c, alt, size, url, needExt);
    SizedGroupIn(s, i, q, d, u, c, alt, size, url, needExt);
    SizedUrlIn(s, i, q, d, u, c, alt, size, url, needExt);
  }

  /** In a link `[alt|size](url)` at `i`, the label runs to `q`. */
  lemma SizedLabelIn(s: string, i: nat, q: nat, d: nat, u: nat, c: nat,
                     alt: string, size: string, url: string, needExt: bool)
    requires SizedMarkdownParts(alt, size, url, needExt)
    requires q == i + 1 + |alt| && d == q + |SizeGroup(size)| && u == d + 2 && c == u + |url|
    requires OccursAt(s, "[" + alt + SizeGroup(size) + "](" + url + ")", i)
    ensures q < |s| && SizedMarkdownAt(s, i, needExt) == SizedAfterLabel(s, i, q, needExt)
  {
    SizedMarkdownSplit(s, i, alt, SizeGroup(size), url, q, d, u, c);
    SizedLabelPart(s, i, q, d, alt, size, needExt);
  }

  /** In a link `[alt|size](url)` at `i`, the size group runs from `q` to the `](` at `d`. */
  lemma SizedGroupIn(s: string, i: nat, q: nat, d: nat, u: nat, c: nat,
                     alt: string, size: string, url: string, needExt: bool)
    requires SizedMarkdownParts(alt, size, url, needExt)
    requires q == i + 1 + |alt| && d == q + |SizeGroup(size)| && u == d + 2 && c == u + |url|
    requires OccursAt(s, "[" + alt + SizeGroup(size) + "](" + url + ")", i)
    ensures q < |s| && SizedAfterLabel(s, i, q, needExt) == UrlTail(s, i, s[i + 1..q], size, u, needExt)
  {
    SizedMarkdownSplit(s, i, alt, SizeGroup(size), url, q, d, u, c);
    SizedGroupPart(s, i, q, d, u, size, needExt);
  }

  /** In a link `[alt|size](url)` at `i`, the url runs from `u` to the `)` at `c`. */
  lemma SizedUrlIn(s: string, i: nat, q: nat, d: nat, u: nat, c: nat,
                   alt: string, size: string, url: string, needExt: bool)
    requires SizedMarkdownParts(alt, size, url, needExt)
    requires q == i + 1 + |alt| && d == q + |SizeGroup(size)| && u == d + 2 && c == u + |url|
    requires OccursAt(s, "[" + alt + SizeGroup(size) + "](" + url + ")", i)
    ensures c < |s| && UrlTail(s, i, s[i + 1..q], size, u, needExt) == Some(Match(i, c + 1, s[i..c + 1], alt, size, url, "", false))
  {
    SizedMarkdownSplit(s, i, alt, SizeGroup(size), url, q, d, u, c);
    SizedUrlPart(s, i, q, u, c, alt, size, url, needExt);
  }

  /** A link `[alt|size](url)` at `i` ends after the `)` at `c`. */
  lemma SizedMarkdownEnds(s: string, i: nat, alt: string, size: string, url: string, c: nat)
    requires OccursAt(s, SizedMarkdownText(alt, size, url), i) && c == i + 3 + |alt| + |SizeGroup(size)| + |url|
    ensures c + 1 == i + |SizedMarkdownText(alt, size, url)| && s[i..c + 1] == SizedMarkdownText(alt, size, url)
  {
  }

  /** A link `[alt|size](url)` at `i`, cut into its parts. */
  lemma SizedMarkdownSplit(s: string, i: nat, alt: string, g: string, url: string, q: nat, d: nat, u: nat, c: nat)
    requires OccursAt(s, "[" + alt + g + "](" + url + ")", i)
    requires q == i + 1 + |alt| && d == q + |g| && u == d + 2 && c == u + |url|
    ensures OccursAt(s, "[", i) && OccursAt(s, alt, i + 1) && OccursAt(s, g, q)
            && OccursAt(s, "](", d) && OccursAt(s, url, u) && OccursAt(s, ")", c)
  {
    OccursSplitAt(s, i, "[" + alt + g + "](" + url, ")", c);
    OccursSplitAt(s, i, "[" + alt + g + "](", url, u);
    OccursSplitAt(s, i, "[" + alt + g, "](", d);
    OccursSplitAt(s, i, "[" + alt, g, q);
    OccursSplitAt(s, i, "[", alt, i + 1);
  }

  /** The label of the link: the matcher goes on after it. */
  lemma SizedLabelPart(s: string, i: nat, q: nat, d: nat, alt: string, size: string, needExt: bool)
    requires ']' !in alt && '|' !in alt && AllDigits(size)
    requires q == i + 1 + |alt| && d == q + |SizeGroup(size)|
    requires OccursAt(s, "[", i) && OccursAt(s, alt, i + 1) && OccursAt(s, SizeGroup(size), q) && OccursAt(s, "](", d)
    ensures q < |s| && SizedMarkdownAt(s, i, needExt) == SizedAfterLabel(s, i, q, needExt)
  {
    CloseChars(s, d);
    SizeLayout(s, q, size);
    LabelPiece(s, i, alt);
    LabelStep(s, i, q, needExt);
  }

  /** The size group of the link: the matcher goes on to its url. */
  lemma SizedGroupPart(s: string, i: nat, q: nat, d: nat, u: nat, size: string, needExt: bool)
    requires AllDigits(size) && i < q && d == q + |SizeGroup(size)| && u == d + 2
    requires OccursAt(s, SizeGroup(size), q) && OccursAt(s, "](", d)
    ensures q < |s| && SizedAfterLabel(s, i, q, needExt) == UrlTail(s, i, s[i + 1..q], size, u, needExt)
  {
    if size != "" {
      SizedGroupDigits(s, i, q, size, needExt);
    } else {
      SizedGroupPlain(s, i, q, needExt);
    }
  }

  /** `|digits](` at `q`. */
  lemma SizedGroupDigits(s: string, i: nat, q: nat, size: string, needExt: bool)
    requires i < q && size != "" && AllDigits(size)
    requires OccursAt(s, SizeGroup(size), q) && OccursAt(s, "](", q + |SizeGroup(size)|)
    ensures var d := q + |SizeGroup(size)|;
            q < |s| && SizedAfterLabel(s, i, q, needExt) == UrlTail(s, i, s[i + 1..q], size, d + 2, needExt)
  {
    var d := q + 1 + |size|;
    CloseChars(s, d);
    SizePiece(s, q, size);
    GroupDigits(s, i, q, d, size, needExt);
  }

  /** `](` right after the label at `q`. */
  lemma SizedGroupPlain(s: string, i: nat, q: nat, needExt: bool)
    requires i < q && OccursAt(s, "](", q)
    ensures q < |s| && SizedAfterLabel(s, i, q, needExt) == UrlTail(s, i, s[i + 1..q], "", q + 2, needExt)
  {
    CloseChars(s, q);
    PlainStep(s, i, q, needExt);
  }

  /** A size group `|digits` between `q` and `d`: the matcher goes on after its `](`. */
  lemma GroupDigits(s: string, i: nat, q: nat, d: nat, size: string, needExt: bool)
    requires i < q && q + 1 < d && d + 1 < |s| && s[q] == '|' && s[d] == ']' && s[d + 1] == '('
    requires DigitsEnd(s, q + 1) == d && s[q + 1..d] == size
    ensures SizedAfterLabel(s, i, q, needExt) == UrlTail(s, i, s[i + 1..q], size, d + 2, needExt)
  {
    SizeStep(s, i, q, needExt);
    DigitsStep(s, i, q, d, needExt);
  }

  /** The url of the link: the matcher ends after its `)`. */
  lemma SizedUrlPart(s: string, i: nat, q: nat, u: nat, c: nat, alt: string, size: string, url: string, needExt: bool)
    requires ')' !in url && (needExt ==> HasImageExt(url, 1)) && q == i + 1 + |alt| && q < u && c == u + |url|
    requires OccursAt(s, alt, i + 1) && OccursAt(s, url, u) && OccursAt(s, ")", c)
    ensures c < |s| && UrlTail(s, i, s[i + 1..q], size, u, needExt) == Some(Match(i, c + 1, s[i..c + 1], alt, size, url, "", false))
  {
    UrlPiece(s, u, c, url);
    UrlTailAt(s, i, s[i + 1..q], size, u, c, url, needExt);
  }

  /** The size group at `q`, followed by `]`: where the digits end. */
  lemma SizeLayout(s: string, q: nat, size: string)
    requires AllDigits(size) && OccursAt(s, SizeGroup(size), q)
    requires var d := q + |SizeGroup(size)|; d < |s| && s[d] == ']'
    ensures var d := q + |SizeGroup(size)|;
            (size == "" ==> d == q && s[q] == ']')
            && (size != "" ==> q + 1 < d && s[q] == '|' && DigitsEnd(s, q + 1) == d && s[q + 1..d] == size)
  {
    if size != "" {
      SizePiece(s, q, size);
    }
  }

  lemma CloseChars(s: string, d: nat)
    requires OccursAt(s, "](", d)
    ensures d + 1 < |s| && s[d] == ']' && s[d + 1] == '('
  {
    CopyChar(s, d, "](", 0, d);
    CopyChar(s, d, "](", 1, d + 1);
  }

  /** `|digits` at `q`, then `](`: the digits run to the bracket. */
  lemma SizePiece(s: string, q: nat, size: string)
    requires size != "" && AllDigits(size) && OccursAt(s, SizeGroup(size), q)
    requires var d := q + 1 + |size|; d < |s| && s[d] == ']'
    ensures var d := q + 1 + |size|; s[q] == '|' && DigitsEnd(s, q + 1) == d && s[q + 1..d] == size
  {
    OccursSplit(s, q, "|", size);
    CopyChar(s, q, "|", 0, q);
    OccursDigits(s, q + 1, size);
    DigitsStop(s, q + 1, q + 1 + |size|);
  }

  /** The run of digits from `from` ends at the first character that is not one. */
  lemma DigitsStop(s: string, from: nat, d: nat)
    requires from <= d < |s| && !IsDigit(s[d]) && forall j :: from <= j < d ==> IsDigit(s[j])
    ensures DigitsEnd(s, from) == d
    decreases d - from
  {
    if from < d {
      DigitsStop(s, from + 1, d);
    }
  }

  /** `[`, then a label without `]` or `|`, then one of them: the label ends there. */
  lemma LabelPiece(s: string, i: nat, alt: string)
    requires ']' !in alt && '|' !in alt && OccursAt(s, "[", i) && OccursAt(s, alt, i + 1)
    requires var q := i + 1 + |alt|; q < |s| && (s[q] == ']' || s[q] == '|')
    ensures var q := i + 1 + |alt|; s[i] == '[' && FindEither(s, i + 1, ']', '|') == q && s[i + 1..q] == alt
  {
    CopyChar(s, i, "[", 0, i);
    OccursAvoids(s, i + 1, alt, ']');
    OccursAvoids(s, i + 1, alt, '|');
    FirstEither(s, i + 1, i + 1 + |alt|, ']', '|');
  }

  /** A url without `)`, then `)` at `c`: the url ends there. */
  lemma UrlPiece(s: string, u: nat, c: nat, url: string)
    requires ')' !in url && c == u + |url| && OccursAt(s, url, u) && OccursAt(s, ")", c)
    ensures c < |s| && FindChar(s, u, ')') == c && s[u..c] == url
  {
    CopyChar(s, c, ")", 0, c);
    OccursAvoids(s, u, url, ')');
    FirstChar(s, u, c, ')');
  }

  /** The first `c` or `d` from `from` on. */
  lemma FirstEither(s: string, from: nat, q: nat, c: char, d: char)
    requires from <= q < |s| && (s[q] == c || s[q] == d) && forall j :: from <= j < q ==> s[j] != c && s[j] != d
    ensures FindEither(s, from, c, d) == q
  {
  }

  /** The first `c` from `from` on. */
  lemma FirstChar(s: string, from: nat, q: nat, c: char)
    requires from <= q < |s| && s[q] == c && forall j :: from <= j < q ==> s[j] != c
    ensures FindChar(s, from, c) == q
  {
  }

  lemma LabelStep(s: string, i: nat, q: nat, needExt: bool)
    requires i < q < |s| && s[i] == '[' && q == FindEither(s, i + 1, ']', '|')
    ensures SizedMarkdownAt(s, i, needExt) == SizedAfterLabel(s, i, q, needExt)
  {
  }

  lemma SizeStep(s: string, i: nat, q: nat, needExt: bool)
    requires i < q < |s| && s[q] == '|'
    ensures SizedAfterLabel(s, i, q, needExt) == SizedAfterDigits(s, i, q, DigitsEnd(s, q + 1), needExt)
  {
  }

  lemma PlainStep(s: string, i: nat, q: nat, needExt: bool)
    requires i < q < |s| && s[q] != '|' && q + 1 < |s| && s[q + 1] == '('
    ensures SizedAfterLabel(s, i, q, needExt) == UrlTail(s, i, s[i + 1..q], "", q + 2, needExt)
  {
  }

  lemma DigitsStep(s: string, i: nat, q: nat, d: nat, needExt: bool)
    requires i < q && q + 1 < d && d + 1 < |s| && s[d] == ']' && s[d + 1] == '('
    ensures SizedAfterDigits(s, i, q, d, needExt) == UrlTail(s, i, s[i + 1..q], s[q + 1..d], d + 2, needExt)
  {
  }

  lemma UrlTailStep(s: string, i: nat, alt: string, size: string, u: nat, c: nat, needExt: bool)
    requires i < u <= c < |s| && FindChar(s, u, ')') == c
    requires needExt ==> HasImageExt(s[u..c], 1)
    ensures UrlTail(s, i, alt, size, u, needExt) == Some(Match(i, c + 1, s[i..c + 1], alt, size, s[u..c], "", false))
  {
  }

  /** The url tail when the url itself is known to stand from `u` to `c`. */
  lemma UrlTailAt(s: string, i: nat, alt: string, size: string, u: nat, c: nat, url: string, needExt: bool)
    requires i < u <= c < |s| && FindChar(s, u, ')') == c && s[u..c] == url
    requires needExt ==> HasImageExt(url, 1)
    ensures UrlTail(s, i, alt, size, u, needExt) == Some(Match(i, c + 1, s[i..c + 1], alt, size, url, "", false))
  {
    UrlTailStep(s, i, alt, size, u, c, needExt);
  }

  // ----- four-part texts -----

  lemma Join4(s: string, i: nat, a: string, b: string, c: string, d: string)
    requires OccursAt(s, a, i) && OccursAt(s, b, i + |a|) && OccursAt(s, c, i + |a| + |b|)
    requires OccursAt(s, d, i + |a| + |b| + |c|)
    ensures OccursAt(s, a + b + c + d, i)
  {
    OccursJoin(s, i, a, b);
    OccursJoin(s, i, a + b, c);
    OccursJoin(s, i, a + b + c, d);
  }

  lemma Split4(s: string, i: nat, a: string, b: string, c: string, d: string)
    requires OccursAt(s, a + b + c + d, i)
    ensures OccursAt(s, a, i) && OccursAt(s, b, i + |a|) && OccursAt(s, c, i + |a| + |b|)
    ensures OccursAt(s, d, i + |a| + |b| + |c|)
  {
    OccursSplit(s, i, a + b + c, d);
    OccursSplit(s, i, a + b, c);
    OccursSplit(s, i, a, b);
  }

  // ----- the sized wiki pattern -----

  /** `[[path|size]]`. */
  function SizedWikiText(path: string, size: string): string
  {
    "[[" + path + "|" + size + "]]"
  }

  /** A match of `\[\[PATH\|(\d+)\]\]` is the link `[[path|size]]` with its digits as the
      size capture and the path as the target. */
  lemma SizedWikiSound(s: string, i: nat, path: string)
    requires i < |s|
    ensures var r := SizedWikiAt(s, i, path);
            r.Some? ==> var m := r.value;
                        |m.size| > 0 && AllDigits(m.size)
                        && m == Match(i, i + |m.text|, SizedWikiText(path, m.size), "", m.size, path, "", false)
  {
  }

  /** A link `[[path|size]]` with a digit size is matched where it stands. */
  lemma SizedWikiComplete(s: string, i: nat, path: string, size: string)
    requires |size| > 0 && AllDigits(size) && OccursAt(s, SizedWikiText(path, size), i)
    ensures var t := SizedWikiText(path, size);
            i < |s| && SizedWikiAt(s, i, path) == Some(Match(i, i + |t|, t, "", size, path, "", false))
  {
    var t := SizedWikiText(path, size);
    var d0 := i + |path| + 3;
    var d := d0 + |size|;
    assert "[[" + path + "|" + size + "]]" == ("[[" + path + "|") + size + "]]";
    OccursSplit(s, i, ("[[" + path + "|") + size, "]]");
    OccursSplit(s, i, "[[" + path + "|", size);
    OccursDigits(s, d0, size);
    CopyChar(s, d, "]]", 0, d);
    SizedWikiStep(s, i, path, d);
  }

  lemma SizedWikiStep(s: string, i: nat, path: string, d: nat)
    requires i + |path| + 3 < d && d + 2 <= |s|
    requires OccursAt(s, "[[" + path + "|", i) && OccursAt(s, "]]", d) && s[d] == ']'
    requires forall j :: i + |path| + 3 <= j < d ==> IsDigit(s[j])
    ensures SizedWikiAt(s, i, path) == Some(Match(i, d + 2, s[i..d + 2], "", s[i + |path| + 3..d], path, "", false))
  {
    assert DigitsEnd(s, i + |path| + 3) == d;
  }

  // ----- the decorator's and main.ts's wiki image pattern -----

  /** `[[inner]]`. */
  function WikiText(inner: string): string
  {
    "[[" + inner + "]]"
  }

  /** A match of `\[\[([^\]]*\.(ext)[^\]]*)\]\]` is a link `[[inner]]` whose inner text has
      no `]` and an image extension with its dot at `minDot` or later. */
  lemma WikiExtSound(s: string, i: nat, minDot: nat)
    requires i <= |s|
    ensures var r := WikiExtAt(s, i, minDot);
            r.Some? ==> var m := r.value;
                        ']' !in m.target && HasImageExt(m.target, minDot)
                        && m == Match(i, i + |m.text|, WikiText(m.target), "", "", m.target, "", false)
  {
    if WikiExtAt(s, i, minDot).Some? {
      WikiExtSome(s, i, minDot);
    }
  }

  lemma WikiExtSome(s: string, i: nat, minDot: nat)
    requires i <= |s| && WikiExtAt(s, i, minDot).Some?
    ensures var r := WikiExtAt(s, i, minDot);
            r.Some? ==> var m := r.value;
                        ']' !in m.target && HasImageExt(m.target, minDot)
                        && m == Match(i, i + |m.text|, WikiText(m.target), "", "", m.target, "", false)
  {
    WikiExtFound(s, i, minDot);
    var p := i + 2;
    var c := FindChar(s, p, ']');
    WikiTextAt(s, i, p, c, s[p..c]);
  }

  /** What a wiki-extension match has found: `[[` at `i`, `]]` at the first `]` after it. */
  lemma WikiExtFound(s: string, i: nat, minDot: nat)
    requires i <= |s| && WikiExtAt(s, i, minDot).Some?
    ensures i + 2 <= |s| && OccursAt(s, "[[", i)
    ensures var c := FindChar(s, i + 2, ']');
            OccursAt(s, "]]", c) && HasImageExt(s[i + 2..c], minDot) && ']' !in s[i + 2..c]
            && WikiExtAt(s, i, minDot) == Some(Match(i, c + 2, s[i..c + 2], "", "", s[i + 2..c], "", false))
  {
  }

  /** `[[`, the inner text and `]]`, side by side, spell the wiki link of that inner text. */
  lemma WikiTextAt(s: string, i: nat, p: nat, c: nat, inner: string)
    requires p == i + 2 && c == p + |inner| && c <= |s| && inner == s[p..c]
    requires OccursAt(s, "[[", i) && OccursAt(s, "]]", c)
    ensures s[i..c + 2] == WikiText(inner)
  {
    assert OccursAt(s, inner, p);
    OccursJoinAt(s, i, "[[", inner, p);
    OccursJoinAt(s, i, "[[" + inner, "]]", c);
  }

  /** A link `[[inner]]` with no `]` inside and an image extension is matched where it
      stands, its inner text as the target. */
  lemma WikiExtComplete(s: string, i: nat, minDot: nat, inner: string)
    requires ']' !in inner && HasImageExt(inner, minDot) && OccursAt(s, WikiText(inner), i)
    ensures var t := WikiText(inner);
            WikiExtAt(s, i, minDot) == Some(Match(i, i + |t|, t, "", "", inner, "", false))
  {
    var p := i + 2;
    var c := p + |inner|;
    WikiTextSplit(s, i, p, c, inner);
    WikiExtClose(s, p, c, inner);
    WikiExtAtFound(s, i, minDot, p, c);
  }

  lemma WikiTextSplit(s: string, i: nat, p: nat, c: nat, inner: string)
    requires OccursAt(s, WikiText(inner), i) && p == i + 2 && c == p + |inner|
    ensures OccursAt(s, "[[", i) && OccursAt(s, inner, p) && OccursAt(s, "]]", c)
    ensures c + 2 == i + |WikiText(inner)| && s[i..c + 2] == WikiText(inner) && s[p..c] == inner
  {
    OccursSplitAt(s, i, "[[" + inner, "]]", c);
    OccursSplitAt(s, i, "[[", inner, p);
  }

  /** The first `]` after the opening brackets is the one that closes an inner text free of `]`. */
  lemma WikiExtClose(s: string, p: nat, c: nat, inner: string)
    requires OccursAt(s, inner, p) && ']' !in inner && c == p + |inner| && OccursAt(s, "]]", c)
    ensures FindChar(s, p, ']') == c
  {
    OccursAvoids(s, p, inner, ']');
    CopyChar(s, c, "]]", 0, c);
  }

  lemma WikiExtAtFound(s: string, i: nat, minDot: nat, p: nat, c: nat)
    requires p == i + 2 && c <= |s| && OccursAt(s, "[[", i) && FindChar(s, p, ']') == c
    requires OccursAt(s, "]]", c) && HasImageExt(s[p..c], minDot)
    ensures WikiExtAt(s, i, minDot) == Some(Match(i, c + 2, s[i..c + 2], "", "", s[p..c], "", false))
  {
  }

  // ----- the three link shapes of `getImagePatterns` -----

  /** What may stand between the target and the closing bracket: `(?:\?[^close]*)?` for a
      remote target, `(?:\|\d+)?` for a local one. */
  predicate ImageTail(tail: string, remote: bool, close: char)
  {
    tail == ""
    || (remote && tail[0] == '?' && close !in tail)
    || (!remote && tail[0] == '|' && |tail| > 1 && AllDigits(tail[1..]))
  }

  /** What comes before the target: `[[`, `[alt](` or `[](`. */
  function Opening(shape: LinkShape, alt: string): string
  {
    match shape
    case WikiShape => "[["
    case MarkdownShape => "[" + alt + "]("
    case MarkdownNoAltShape => "[]("
  }

  function Closing(shape: LinkShape): string
  {
    if shape.WikiShape? then "]]" else ")"
  }

  function ImageLinkText(shape: LinkShape, alt: string, target: string, tail: string): string
  {
    Opening(shape, alt) + target + tail + Closing(shape)
  }

  /** A label only in the markdown shape, without `]`; a tail the target's kind allows. */
  predicate ImageLinkParts(shape: LinkShape, alt: string, tail: string, remote: bool)
  {
    (if shape.MarkdownShape? then ']' !in alt else alt == "")
    && ImageTail(tail, remote, if shape.WikiShape? then ']' else ')')
  }

  /** What `WikiTail` accepts: a tail the target's kind allows, then `]]`. */
  lemma WikiTailSound(s: string, k: nat, remote: bool)
    requires k <= |s|
    ensures var r := WikiTail(s, k, remote);
            r.Some? ==> k + 2 <= r.value && ImageTail(s[k..r.value - 2], remote, ']') && OccursAt(s, "]]", r.value - 2)
  {
    var r := WikiTail(s, k, remote);
    if r.Some? && k < |s| && s[k] == (if remote then '?' else '|') {
      var c := r.value - 2;
      var tail := s[k..c];
      assert tail[0] == s[k];
      if remote {
        assert c == FindChar(s, k + 1, ']');
        assert ']' !in tail;
      } else {
        assert c == DigitsEnd(s, k + 1);
        assert tail[1..] == s[k + 1..c];
      }
    }
  }

  /** A tail the target's kind allows, followed by `]]`, is read up to the brackets. */
  lemma WikiTailComplete(s: string, k: nat, tail: string, remote: bool)
    requires ImageTail(tail, remote, ']') && OccursAt(s, tail + "]]", k)
    ensures WikiTail(s, k, remote) == Some(k + |tail| + 2)
  {
    var c := k + |tail|;
    OccursSplit(s, k, tail, "]]");
    CopyChar(s, c, "]]", 0, c);
    if tail != "" {
      CopyChar(s, k, tail, 0, k);
      if remote {
        OccursAvoids(s, k, tail, ']');
        assert FindChar(s, k + 1, ']') == c;
      } else {
        OccursSplit(s, k, tail[..1], tail[1..]);
        OccursDigits(s, k + 1, tail[1..]);
        assert DigitsEnd(s, k + 1) == c;
      }
    }
  }

  /** What `ParenTail` accepts: a tail the target's kind allows, then `)`. */
  lemma ParenTailSound(s: string, k: nat, remote: bool)
    requires k <= |s|
    ensures var r := ParenTail(s, k, remote);
            r.Some? ==> k + 1 <= r.value && ImageTail(s[k..r.value - 1], remote, ')') && s[r.value - 1] == ')'
  {
    var r := ParenTail(s, k, remote);
    if r.Some? && k < |s| && s[k] == (if remote then '?' else '|') {
      var c := r.value - 1;
      var tail := s[k..c];
      assert tail[0] == s[k];
      if remote {
        assert c == FindChar(s, k + 1, ')');
        assert ')' !in tail;
      } else {
        assert c == DigitsEnd(s, k + 1);
        assert tail[1..] == s[k + 1..c];
      }
    }
  }

  /** A tail the target's kind allows, followed by `)`, is read up to the bracket. */
  lemma ParenTailComplete(s: string, k: nat, tail: string, remote: bool)
    requires ImageTail(tail, remote, ')') && OccursAt(s, tail + ")", k)
    ensures ParenTail(s, k, remote) == Some(k + |tail| + 1)
  {
    var c := k + |tail|;
    OccursSplit(s, k, tail, ")");
    CopyChar(s, c, ")", 0, c);
    if tail != "" {
      CopyChar(s, k, tail, 0, k);
      if remote {
        OccursAvoids(s, k, tail, ')');
        assert FindChar(s, k + 1, ')') == c;
      } else {
        OccursSplit(s, k, tail[..1], tail[1..]);
        OccursDigits(s, k + 1, tail[1..]);
        assert DigitsEnd(s, k + 1) == c;
      }
    }
  }

  /** A match of one of the `getImagePatterns` shapes (without its `!?`) is the link
      `opening + target + tail + closing` of that shape, with a tail the target's kind
      allows, and captures its label. */
  lemma ImageLinkSound(s: string, j: nat, shape: LinkShape, target: string, remote: bool)
    requires j <= |s|
    ensures var r := ImageLinkCore(s, j, shape, target, remote);
            r.Some? ==> var m := r.value;
                        m == Match(j, j + |m.text|, m.text, m.alt, "", target, "", false)
                        && exists tail :: ImageLinkParts(shape, m.alt, tail, remote)
                                          && m.text == ImageLinkText(shape, m.alt, target, tail)
  {
    var r := ImageLinkCore(s, j, shape, target, remote);
    if r.Some? {
      var m := r.value;
      var tail: string;
      match shape
      case WikiShape =>
        tail := WikiLinkSound(s, j, target, remote);
      case MarkdownShape =>
        tail := MarkdownLinkSound(s, j, target, remote);
      case MarkdownNoAltShape =>
        tail := NoAltLinkSound(s, j, target, remote);
      assert ImageLinkParts(shape, m.alt, tail, remote) && m.text == ImageLinkText(shape, m.alt, target, tail);
    }
  }

  lemma WikiLinkSound(s: string, j: nat, target: string, remote: bool) returns (tail: string)
    requires j <= |s| && WikiLinkAt(s, j, target, remote).Some?
    ensures var m := WikiLinkAt(s, j, target, remote).value;
            m == Match(j, j + |m.text|, m.text, "", "", target, "", false)
            && ImageTail(tail, remote, ']') && m.text == ImageLinkText(WikiShape, "", target, tail)
  {
    var u := j + 2;
    var k := u + |target|;
    WikiLinkFound(s, j, k, target, remote);
    WikiTailSound(s, k, remote);
    var c := WikiTail(s, k, remote).value - 2;
    tail := s[k..c];
    WikiLinkText(s, j, u, k, c, target, tail);
  }

  /** What a wiki-shape match has found: `[[target` at `j`, then a tail from `k`. */
  lemma WikiLinkFound(s: string, j: nat, k: nat, target: string, remote: bool)
    requires j <= |s| && k == j + 2 + |target| && WikiLinkAt(s, j, target, remote).Some?
    ensures OccursAt(s, "[[" + target, j) && WikiTail(s, k, remote).Some?
    ensures var e := WikiTail(s, k, remote).value;
            WikiLinkAt(s, j, target, remote) == Some(Match(j, e, s[j..e], "", "", target, "", false))
  {
  }

  /** `[[target`, a tail and `]]`, side by side, spell the wiki-shape link. */
  lemma WikiLinkText(s: string, j: nat, u: nat, k: nat, c: nat, target: string, tail: string)
    requires u == j + 2 && k == u + |target| && c == k + |tail|
    requires OccursAt(s, "[[" + target, j) && OccursAt(s, "]]", c) && tail == s[k..c]
    ensures s[j..c + 2] == ImageLinkText(WikiShape, "", target, tail)
  {
    OccursSplitAt(s, j, "[[", target, u);
    assert OccursAt(s, tail, k);
    OccursJoinAt(s, j, "[[", target, u);
    OccursJoinAt(s, j, "[[" + target, tail, k);
    OccursJoinAt(s, j, "[[" + target + tail, "]]", c);
  }

  lemma MarkdownLinkSound(s: string, j: nat, target: string, remote: bool) returns (tail: string)
    requires j <= |s| && MarkdownLinkAt(s, j, target, remote).Some?
    ensures var m := MarkdownLinkAt(s, j, target, remote).value;
            m == Match(j, j + |m.text|, m.text, m.alt, "", target, "", false)
            && ']' !in m.alt && ImageTail(tail, remote, ')') && m.text == ImageLinkText(MarkdownShape, m.alt, target, tail)
  {
    assert j < |s|;
    var q := FindChar(s, j + 1, ']');
    var u := q + 2;
    var k := u + |target|;
    MarkdownCoreSome(s, j, q, k, target, remote);
    ParenTailSound(s, k, remote);
    var e := ParenTail(s, k, remote).value;
    var c := e - 1;
    tail := s[k..c];
    MarkdownLinkText(s, j, q, u, k, c, target, tail);
  }

  /** What a markdown-shape match reads: `[`, the label up to the first `]` (at `q`), `](`,
      the target, and a tail from `k` that `ParenTail` accepts. */
  lemma MarkdownCoreSome(s: string, j: nat, q: nat, k: nat, target: string, remote: bool)
    requires j < |s| && q == FindChar(s, j + 1, ']') && k == q + 2 + |target|
    requires MarkdownLinkAt(s, j, target, remote).Some?
    ensures s[j] == '[' && OccursAt(s, "](" + target, q) && ParenTail(s, k, remote).Some?
    ensures var e := ParenTail(s, k, remote).value;
            MarkdownLinkAt(s, j, target, remote) == Some(Match(j, e, s[j..e], s[j + 1..q], "", target, "", false))
  {
    assert s[j] == '[';
    MarkdownLabelStep(s, j, q, target, remote);
    MarkdownAfterLabelSome(s, j, q, target, remote);
    MarkdownTargetStep(s, j, q, k, target, remote);
    MarkdownCloseSome(s, j, q, target, ParenTail(s, k, remote));
  }

  lemma MarkdownAfterLabelSome(s: string, j: nat, q: nat, target: string, remote: bool)
    requires j < q <= |s| && MarkdownAfterLabel(s, j, q, target, remote).Some?
    ensures OccursAt(s, "](" + target, q)
  {
  }

  lemma MarkdownCloseSome(s: string, j: nat, q: nat, target: string, e: Option<nat>)
    requires j < q <= |s| && (e.Some? ==> q < e.value <= |s|) && MarkdownClose(s, j, q, target, e).Some?
    ensures e.Some? && MarkdownClose(s, j, q, target, e) == Some(Match(j, e.value, s[j..e.value], s[j + 1..q], "", target, "", false))
  {
  }

  /** The text of a markdown-shape match spells `[alt](target tail)`. */
  lemma MarkdownLinkText(s: string, j: nat, q: nat, u: nat, k: nat, c: nat, target: string, tail: string)
    requires j < q && u == q + 2 && k == u + |target| && c == k + |tail| && c < |s|
    requires s[j] == '[' && s[c] == ')' && OccursAt(s, "](" + target, q) && tail == s[k..c]
    ensures s[j..c + 1] == ImageLinkText(MarkdownShape, s[j + 1..q], target, tail)
  {
    var alt := s[j + 1..q];
    assert OccursAt(s, "[", j) && OccursAt(s, alt, j + 1) && OccursAt(s, tail, k) && OccursAt(s, ")", c);
    OccursSplitAt(s, q, "](", target, u);
    OccursJoinAt(s, j, "[", alt, j + 1);
    OccursJoinAt(s, j, "[" + alt, "](", q);
    OccursJoinAt(s, j, "[" + alt + "](", target, u);
    OccursJoinAt(s, j, "[" + alt + "](" + target, tail, k);
    OccursJoinAt(s, j, "[" + alt + "](" + target + tail, ")", c);
  }

  lemma NoAltLinkSound(s: string, j: nat, target: string, remote: bool) returns (tail: string)
    requires j <= |s| && NoAltLinkAt(s, j, target, remote).Some?
    ensures var m := NoAltLinkAt(s, j, target, remote).value;
            m == Match(j, j + |m.text|, m.text, "", "", target, "", false)
            && ImageTail(tail, remote, ')') && m.text == ImageLinkText(MarkdownNoAltShape, "", target, tail)
  {
    var u := j + 3;
    var k := u + |target|;
    NoAltFound(s, j, k, target, remote);
    ParenTailSound(s, k, remote);
    var c := ParenTail(s, k, remote).value - 1;
    tail := s[k..c];
    NoAltText(s, j, u, k, c, target, tail);
  }

  /** What a bare markdown-shape match has found: `[](target` at `j`, then a tail from `k`. */
  lemma NoAltFound(s: string, j: nat, k: nat, target: string, remote: bool)
    requires j <= |s| && k == j + 3 + |target| && NoAltLinkAt(s, j, target, remote).Some?
    ensures OccursAt(s, "[](" + target, j) && ParenTail(s, k, remote).Some?
    ensures var e := ParenTail(s, k, remote).value;
            NoAltLinkAt(s, j, target, remote) == Some(Match(j, e, s[j..e], "", "", target, "", false))
  {
  }

  /** `[](target`, a tail and `)`, side by side, spell the bare markdown link. */
  lemma NoAltText(s: string, j: nat, u: nat, k: nat, c: nat, target: string, tail: string)
    requires u == j + 3 && k == u + |target| && c == k + |tail| && c < |s|
    requires OccursAt(s, "[](" + target, j) && s[c] == ')' && tail == s[k..c]
    ensures s[j..c + 1] == ImageLinkText(MarkdownNoAltShape, "", target, tail)
  {
    OccursSplitAt(s, j, "[](", target, u);
    assert OccursAt(s, tail, k) && OccursAt(s, ")", c);
    OccursJoinAt(s, j, "[](", target, u);
    OccursJoinAt(s, j, "[](" + target, tail, k);
    OccursJoinAt(s, j, "[](" + target + tail, ")", c);
  }

  /** A link of one of the shapes, with a tail the target's kind allows, is matched
      where it stands, with its label captured. */
  lemma ImageLinkComplete(s: string, j: nat, shape: LinkShape, alt: string, target: string, tail: string,
                          remote: bool)
    requires ImageLinkParts(shape, alt, tail, remote) && OccursAt(s, ImageLinkText(shape, alt, target, tail), j)
    ensures var t := ImageLinkText(shape, alt, target, tail);
            ImageLinkCore(s, j, shape, target, remote) == Some(Match(j, j + |t|, t, alt, "", target, "", false))
  {
    match shape
    case WikiShape =>
      WikiShapeComplete(s, j, shape, alt, target, tail, remote);
    case MarkdownShape =>
      MarkdownShapeComplete(s, j, shape, alt, target, tail, remote);
    case MarkdownNoAltShape =>
      NoAltShapeComplete(s, j, shape, alt, target, tail, remote);
  }

  lemma WikiShapeComplete(s: string, j: nat, shape: LinkShape, alt: string, target: string, tail: string,
                          remote: bool)
    requires shape == WikiShape
    requires ImageLinkParts(shape, alt, tail, remote) && OccursAt(s, ImageLinkText(shape, alt, target, tail), j)
    ensures var t := ImageLinkText(shape, alt, target, tail);
            ImageLinkCore(s, j, shape, target, remote) == Some(Match(j, j + |t|, t, alt, "", target, "", false))
  {
    assert alt == "";
    WikiLinkComplete(s, j, target, tail, remote);
  }

  lemma MarkdownShapeComplete(s: string, j: nat, shape: LinkShape, alt: string, target: string, tail: string,
                              remote: bool)
    requires shape == MarkdownShape
    requires ImageLinkParts(shape, alt, tail, remote) && OccursAt(s, ImageLinkText(shape, alt, target, tail), j)
    ensures var t := ImageLinkText(shape, alt, target, tail);
            ImageLinkCore(s, j, shape, target, remote) == Some(Match(j, j + |t|, t, alt, "", target, "", false))
  {
    MarkdownLinkComplete(s, j, alt, target, tail, remote);
  }

  lemma NoAltShapeComplete(s: string, j: nat, shape: LinkShape, alt: string, target: string, tail: string,
                           remote: bool)
    requires shape == MarkdownNoAltShape
    requires ImageLinkParts(shape, alt, tail, remote) && OccursAt(s, ImageLinkText(shape, alt, target, tail), j)
    ensures var t := ImageLinkText(shape, alt, target, tail);
            ImageLinkCore(s, j, shape, target, remote) == Some(Match(j, j + |t|, t, alt, "", target, "", false))
  {
    assert alt == "";
    NoAltLinkComplete(s, j, target, tail, remote);
  }

  lemma WikiLinkComplete(s: string, j: nat, target: string, tail: string, remote: bool)
    requires ImageTail(tail, remote, ']') && OccursAt(s, ImageLinkText(WikiShape, "", target, tail), j)
    ensures var t := ImageLinkText(WikiShape, "", target, tail);
            WikiLinkAt(s, j, target, remote) == Some(Match(j, j + |t|, t, "", "", target, "", false))
  {
    var u := j + 2;
    var k := u + |target|;
    var c := k + |tail|;
    WikiLinkPieces(s, j, target, tail, u, k, c);
    WikiTailCompleteAt(s, k, c, tail, remote, c + 2);
    WikiCoreStep(s, j, k, target, remote, c + 2);
  }

  /** `[[target tail]]` at `j`: `[[target` there, `tail` at `k`, `]]` at `c`. */
  lemma WikiLinkPieces(s: string, j: nat, target: string, tail: string, u: nat, k: nat, c: nat)
    requires OccursAt(s, ImageLinkText(WikiShape, "", target, tail), j)
    requires u == j + 2 && k == u + |target| && c == k + |tail|
    ensures c + 2 == j + |ImageLinkText(WikiShape, "", target, tail)|
    ensures s[j..c + 2] == ImageLinkText(WikiShape, "", target, tail)
    ensures OccursAt(s, "[[" + target, j) && OccursAt(s, tail, k) && OccursAt(s, "]]", c)
  {
    Split4At(s, j, "[[", target, tail, "]]", u, k, c);
    OccursJoinAt(s, j, "[[", target, u);
  }

  /** A tail the target's kind allows at `k`, then `]]` at `c`: `WikiTail` ends at `e`. */
  lemma WikiTailCompleteAt(s: string, k: nat, c: nat, tail: string, remote: bool, e: nat)
    requires ImageTail(tail, remote, ']') && c == k + |tail| && e == c + 2
    requires OccursAt(s, tail, k) && OccursAt(s, "]]", c)
    ensures WikiTail(s, k, remote) == Some(e)
  {
    OccursJoin(s, k, tail, "]]");
    WikiTailComplete(s, k, tail, remote);
  }

  lemma WikiCoreStep(s: string, j: nat, k: nat, target: string, remote: bool, e: nat)
    requires j <= |s| && k == j + 2 + |target| && OccursAt(s, "[[" + target, j) && WikiTail(s, k, remote) == Some(e)
    ensures WikiLinkAt(s, j, target, remote) == Some(Match(j, e, s[j..e], "", "", target, "", false))
  {
  }

  lemma MarkdownLinkComplete(s: string, j: nat, alt: string, target: string, tail: string, remote: bool)
    requires ']' !in alt && ImageTail(tail, remote, ')')
    requires OccursAt(s, ImageLinkText(MarkdownShape, alt, target, tail), j)
    ensures var t := ImageLinkText(MarkdownShape, alt, target, tail);
            MarkdownLinkAt(s, j, target, remote) == Some(Match(j, j + |t|, t, alt, "", target, "", false))
  {
    var q := j + 1 + |alt|;
    var u := q + 2;
    var k := u + |target|;
    var e := k + |tail| + 1;
    MarkdownOpenPiece(s, j, alt, target, tail, q, u, k, e);
    MarkdownTargetIn(s, j, alt, target, tail, q, u, k, e);
    MarkdownTailIn(s, j, alt, target, tail, remote, u, k, e);
    MarkdownCoreAt(s, j, q, k, target, remote, e);
  }

  /** In a markdown-shape link at `j`, the text up to `e` is the link, and its label
      runs from `j + 1` to the first `]`, at `q`. */
  lemma MarkdownOpenPiece(s: string, j: nat, alt: string, target: string, tail: string, q: nat, u: nat, k: nat, e: nat)
    requires ']' !in alt && OccursAt(s, ImageLinkText(MarkdownShape, alt, target, tail), j)
    requires q == j + 1 + |alt| && u == q + 2 && k == u + |target| && e == k + |tail| + 1
    ensures e == j + |ImageLinkText(MarkdownShape, alt, target, tail)| && s[j..e] == ImageLinkText(MarkdownShape, alt, target, tail)
    ensures j < |s| && s[j] == '[' && FindChar(s, j + 1, ']') == q && s[j + 1..q] == alt
  {
    Split4At(s, j, "[" + alt + "](", target, tail, ")", u, k, e - 1);
    MarkdownOpening(s, j, alt, q);
  }

  /** In a markdown-shape link at `j`, `](target` stands at the end `q` of the label. */
  lemma MarkdownTargetIn(s: string, j: nat, alt: string, target: string, tail: string, q: nat, u: nat, k: nat, e: nat)
    requires OccursAt(s, ImageLinkText(MarkdownShape, alt, target, tail), j)
    requires q == j + 1 + |alt| && u == q + 2 && k == u + |target| && e == k + |tail| + 1
    ensures OccursAt(s, "](" + target, q)
  {
    Split4At(s, j, "[" + alt + "](", target, tail, ")", u, k, e - 1);
    MarkdownTargetPiece(s, j, q, u, alt, target);
  }

  /** In a markdown-shape link at `j`, the tail from `k` is read up to the end `e`. */
  lemma MarkdownTailIn(s: string, j: nat, alt: string, target: string, tail: string, remote: bool, u: nat, k: nat, e: nat)
    requires ImageTail(tail, remote, ')') && OccursAt(s, ImageLinkText(MarkdownShape, alt, target, tail), j)
    requires u == j + 3 + |alt| && k == u + |target| && e == k + |tail| + 1
    ensures ParenTail(s, k, remote) == Some(e)
  {
    var c := e - 1;
    Split4At(s, j, "[" + alt + "](", target, tail, ")", u, k, c);
    ParenTailCompleteAt(s, k, c, tail, remote, e);
  }

  /** A tail the target's kind allows at `k`, then `)` at `c`: `ParenTail` ends at `e`. */
  lemma ParenTailCompleteAt(s: string, k: nat, c: nat, tail: string, remote: bool, e: nat)
    requires ImageTail(tail, remote, ')') && c == k + |tail| && e == c + 1
    requires OccursAt(s, tail, k) && OccursAt(s, ")", c)
    ensures ParenTail(s, k, remote) == Some(e)
  {
    OccursJoin(s, k, tail, ")");
    ParenTailComplete(s, k, tail, remote);
  }

  /** `Split4` with the positions of the parts given by name. */
  lemma Split4At(s: string, i: nat, a: string, b: string, c: string, d: string, p1: nat, p2: nat, p3: nat)
    requires OccursAt(s, a + b + c + d, i)
    requires p1 == i + |a| && p2 == p1 + |b| && p3 == p2 + |c|
    ensures OccursAt(s, a, i) && OccursAt(s, b, p1) && OccursAt(s, c, p2) && OccursAt(s, d, p3)
  {
    Split4(s, i, a, b, c, d);
  }

  lemma MarkdownTargetPiece(s: string, j: nat, q: nat, u: nat, alt: string, target: string)
    requires q == j + 1 + |alt| && u == q + 2
    requires OccursAt(s, "[" + alt + "](", j) && OccursAt(s, target, u)
    ensures OccursAt(s, "](" + target, q)
  {
    OccursSplit(s, j, "[" + alt, "](");
    OccursJoin(s, q, "](", target);
  }

  /** `[alt](` at `j`: the label runs to the first `]`, at `q`. */
  lemma MarkdownOpening(s: string, j: nat, alt: string, q: nat)
    requires ']' !in alt && OccursAt(s, "[" + alt + "](", j) && q == j + 1 + |alt|
    ensures j < |s| && s[j] == '[' && FindChar(s, j + 1, ']') == q && s[j + 1..q] == alt
  {
    OccursSplit(s, j, "[" + alt, "](");
    OccursSplit(s, j, "[", alt);
    MarkdownLabelEnds(s, j, alt, q);
  }

  /** `[`, a label without `]`, then `](`: the first `]` after `[` closes the label. */
  lemma MarkdownLabelEnds(s: string, j: nat, alt: string, q: nat)
    requires q == j + 1 + |alt|
    requires ']' !in alt && OccursAt(s, "[", j) && OccursAt(s, alt, j + 1) && OccursAt(s, "](", q)
    ensures j < |s| && s[j] == '[' && FindChar(s, j + 1, ']') == q
  {
    CopyChar(s, j, "[", 0, j);
    CopyChar(s, q, "](", 0, q);
    OccursAvoids(s, j + 1, alt, ']');
    FirstChar(s, j + 1, q, ']');
  }

  /** The markdown shape read at `j` when its label ends at `q` and its tail, from `k`,
      closes at `e`. */
  lemma MarkdownCoreAt(s: string, j: nat, q: nat, k: nat, target: string, remote: bool, e: nat)
    requires j < |s| && s[j] == '[' && q == FindChar(s, j + 1, ']') && k == q + 2 + |target|
    requires OccursAt(s, "](" + target, q) && ParenTail(s, k, remote) == Some(e)
    ensures MarkdownLinkAt(s, j, target, remote) == Some(Match(j, e, s[j..e], s[j + 1..q], "", target, "", false))
  {
    MarkdownLabelStep(s, j, q, target, remote);
    MarkdownTargetStep(s, j, q, k, target, remote);
  }

  lemma MarkdownLabelStep(s: string, j: nat, q: nat, target: string, remote: bool)
    requires j < |s| && s[j] == '[' && q == FindChar(s, j + 1, ']')
    ensures MarkdownLinkAt(s, j, target, remote) == MarkdownAfterLabel(s, j, q, target, remote)
  {
  }

  lemma MarkdownTargetStep(s: string, j: nat, q: nat, k: nat, target: string, remote: bool)
    requires j < q <= |s| && k == q + 2 + |target| && OccursAt(s, "](" + target, q)
    ensures MarkdownAfterLabel(s, j, q, target, remote) == MarkdownClose(s, j, q, target, ParenTail(s, k, remote))
  {
  }

  lemma NoAltLinkComplete(s: string, j: nat, target: string, tail: string, remote: bool)
    requires ImageTail(tail, remote, ')') && OccursAt(s, ImageLinkText(MarkdownNoAltShape, "", target, tail), j)
    ensures var t := ImageLinkText(MarkdownNoAltShape, "", target, tail);
            NoAltLinkAt(s, j, target, remote) == Some(Match(j, j + |t|, t, "", "", target, "", false))
  {
    var u := j + 3;
    var k := u + |target|;
    var c := k + |tail|;
    NoAltLinkPieces(s, j, target, tail, u, k, c);
    ParenTailCompleteAt(s, k, c, tail, remote, c + 1);
    NoAltCoreStep(s, j, k, target, remote, c + 1);
  }

  /** `[](target tail)` at `j`: `[](target` there, `tail` at `k`, `)` at `c`. */
  lemma NoAltLinkPieces(s: string, j: nat, target: string, tail: string, u: nat, k: nat, c: nat)
    requires OccursAt(s, ImageLinkText(MarkdownNoAltShape, "", target, tail), j)
    requires u == j + 3 && k == u + |target| && c == k + |tail|
    ensures c + 1 == j + |ImageLinkText(MarkdownNoAltShape, "", target, tail)|
    ensures s[j..c + 1] == ImageLinkText(MarkdownNoAltShape, "", target, tail)
    ensures OccursAt(s, "[](" + target, j) && OccursAt(s, tail, k) && OccursAt(s, ")", c)
  {
    Split4At(s, j, "[](", target, tail, ")", u, k, c);
    OccursJoinAt(s, j, "[](", target, u);
  }

  lemma NoAltCoreStep(s: string, j: nat, k: nat, target: string, remote: bool, e: nat)
    requires j <= |s| && k == j + 3 + |target| && OccursAt(s, "[](" + target, j) && ParenTail(s, k, remote) == Some(e)
    ensures NoAltLinkAt(s, j, target, remote) == Some(Match(j, e, s[j..e], "", "", target, "", false))
  {
  }

}
