// String primitives of JavaScript that the plugin relies on (indexOf, split,
// startsWith, trim, toLowerCase, ...), on `string == seq<char>`.

module Text {
  predicate IsDigit(c: char) { '0' <= c <= '9' }
  predicate IsUpper(c: char) { 'A' <= c <= 'Z' }
  predicate IsLower(c: char) { 'a' <= c <= 'z' }
  predicate IsLetter(c: char) { IsUpper(c) || IsLower(c) }
  predicate AllDigits(s: string) { forall i :: 0 <= i < |s| ==> IsDigit(s[i]) }

  /** ASCII case mapping; the case-insensitive patterns of the plugin only fold ASCII. */
  function LowerChar(c: char): char
  {
    if IsUpper(c) then (c as int + 32) as char else c
  }

  function ToLower(s: string): string
  {
    seq(|s|, i requires 0 <= i < |s| => LowerChar(s[i]))
  }

  /** `t` occurs in `s` at index `i`. */
  predicate OccursAt(s: string, t: string, i: int)
  {
    0 <= i && i + |t| <= |s| && s[i..i + |t|] == t
  }

  predicate StartsWith(s: string, p: string) { OccursAt(s, p, 0) }

  predicate EndsWith(s: string, p: string) { |p| <= |s| && OccursAt(s, p, |s| - |p|) }

  /** `s.indexOf(t, from)`: the first occurrence at or after `from`, or -1. */
  function IndexOf(s: string, t: string, from: nat): (r: int)
    requires from <= |s|
    ensures r == -1 || (from <= r && OccursAt(s, t, r))
    ensures forall j :: from <= j && (r == -1 || j < r) ==> !OccursAt(s, t, j)
    decreases |s| - from
  {
    if from + |t| > |s| then -1
    else if s[from..from + |t|] == t then from
    else IndexOf(s, t, from + 1)
  }

  /** `s.includes(t)`. */
  predicate Contains(s: string, t: string) { IndexOf(s, t, 0) >= 0 }

  /** `s.lastIndexOf(t, upto)`: the last occurrence starting at or before `upto`, or -1. */
  function LastIndexOf(s: string, t: string, upto: int): (r: int)
    ensures r == -1 || (0 <= r <= upto && OccursAt(s, t, r))
    ensures forall j :: r < j <= upto ==> !OccursAt(s, t, j)
    decreases upto + 1
  {
    if upto < 0 then -1
    else if OccursAt(s, t, upto) then upto
    else LastIndexOf(s, t, upto - 1)
  }

  /** The first index at or after `from` holding `c`, or `|s|` when there is none. */
  function FindChar(s: string, from: nat, c: char): (k: nat)
    requires from <= |s|
    ensures from <= k <= |s|
    ensures k < |s| ==> s[k] == c
    ensures forall j :: from <= j < k ==> s[j] != c
    decreases |s| - from
  {
    if from == |s| || s[from] == c then from else FindChar(s, from + 1, c)
  }

  /** The first index at or after `from` holding `c` or `d`, or `|s|`. */
  function FindEither(s: string, from: nat, c: char, d: char): (k: nat)
    requires from <= |s|
    ensures from <= k <= |s|
    ensures k < |s| ==> s[k] == c || s[k] == d
    ensures forall j :: from <= j < k ==> s[j] != c && s[j] != d
    decreases |s| - from
  {
    if from == |s| || s[from] == c || s[from] == d then from else FindEither(s, from + 1, c, d)
  }

  /** The end of the run of ASCII digits that starts at `from`. */
  function DigitsEnd(s: string, from: nat): (k: nat)
    requires from <= |s|
    ensures from <= k <= |s|
    ensures k < |s| ==> !IsDigit(s[k])
    ensures forall j :: from <= j < k ==> IsDigit(s[j])
    decreases |s| - from
  {
    if from == |s| || !IsDigit(s[from]) then from else DigitsEnd(s, from + 1)
  }

  /** `s.split(c)` for a one-character separator. */
  function Split(s: string, c: char): (parts: seq<string>)
    ensures |parts| >= 1
    ensures forall k :: 0 <= k < |parts| ==> c !in parts[k]
    decreases |s|
  {
    var k := FindChar(s, 0, c);
    if k == |s| then [s] else [s[..k]] + Split(s[k + 1..], c)
  }

  /** `parts.join(c)`, the inverse of `Split`. */
  function Join(parts: seq<string>, c: char): string
  {
    if |parts| == 0 then "" else if |parts| == 1 then parts[0] else parts[0] + [c] + Join(parts[1..], c)
  }

  lemma {:induction false} SplitJoin(s: string, c: char)
    ensures Join(Split(s, c), c) == s
    decreases |s|
  {
    var k := FindChar(s, 0, c);
    if k < |s| {
      var a, t := s[..k], s[k + 1..];
      SplitJoin(t, c);
      SplitCons(s, c, k, a, t);
      JoinCons(a, Split(t, c), c);
    }
  }

  /** Splitting at the first separator `k` gives the head and the split of the rest. */
  lemma SplitCons(s: string, c: char, k: nat, a: string, t: string)
    requires k == FindChar(s, 0, c) && k < |s| && a == s[..k] && t == s[k + 1..]
    ensures Split(s, c) == [a] + Split(t, c)
    ensures s == a + [c] + t
  {
  }

  lemma JoinCons(a: string, parts: seq<string>, c: char)
    requires |parts| >= 1
    ensures Join([a] + parts, c) == a + [c] + Join(parts, c)
  {
    assert ([a] + parts)[1..] == parts;
  }

  /** Splitting two separator-free pieces joined by the separator gives them back. */
  lemma SplitPair(a: string, b: string, c: char)
    requires c !in a && c !in b
    ensures Split(a + [c] + b, c) == [a, b]
  {
    var s := a + [c] + b;
    assert s[|a|] == c;
    assert forall j :: 0 <= j < |a| ==> s[j] == a[j];
    assert FindChar(s, 0, c) == |a|;
    assert s[..|a|] == a;
    assert s[|a| + 1..] == b;
    assert FindChar(b, 0, c) == |b|;
  }

  /** `parts[i] || ''` on the result of a split. */
  function PartOr(parts: seq<string>, i: nat): string
  {
    if i < |parts| then parts[i] else ""
  }

  /** `s.split(c)[0]`: everything before the first `c`. */
  function Before(s: string, c: char): (r: string)
    ensures c !in r && StartsWith(s, r)
    ensures r == s[..FindChar(s, 0, c)]
  {
    Split(s, c)[0]
  }

  lemma BeforeAbsent(s: string, c: char)
    requires c !in s
    ensures Before(s, c) == s
  {
  }

  /** `s.split(c).pop()`: everything after the last `c`. */
  function AfterLast(s: string, c: char): string
    decreases |s|
  {
    var k := FindChar(s, 0, c);
    if k == |s| then s else AfterLast(s[k + 1..], c)
  }

  /** The last part of a split is the tail of the string after its last separator. */
  lemma {:induction false} AfterLastIsSuffix(s: string, c: char)
    ensures c !in AfterLast(s, c) && EndsWith(s, AfterLast(s, c))
    ensures |AfterLast(s, c)| < |s| ==> s[|s| - |AfterLast(s, c)| - 1] == c
    ensures |AfterLast(s, c)| == |s| ==> c !in s
    decreases |s|
  {
    var k := FindChar(s, 0, c);
    if k < |s| {
      var t := s[k + 1..];
      AfterLastIsSuffix(t, c);
      AfterLastSkip(s, c, k, t);
      SuffixOfTail(s, t, AfterLast(t, c), k);
    } else {
      assert forall j :: 0 <= j < |s| ==> s[j] != c;
    }
  }

  /** Past the first separator, the last part is the last part of the rest. */
  lemma AfterLastSkip(s: string, c: char, k: nat, t: string)
    requires k == FindChar(s, 0, c) && k < |s| && t == s[k + 1..]
    ensures AfterLast(s, c) == AfterLast(t, c)
  {
  }

  /** A suffix of the tail past index `k` is a suffix of the whole, preceded by the same character. */
  lemma SuffixOfTail(s: string, t: string, a: string, k: nat)
    requires k < |s| && t == s[k + 1..] && EndsWith(t, a)
    ensures EndsWith(s, a)
    ensures |a| < |t| ==> s[|s| - |a| - 1] == t[|t| - |a| - 1]
    ensures |a| == |t| ==> s[|s| - |a| - 1] == s[k]
  {
    assert s[|s| - |t|..] == t;
  }

  /** The part after the last separator is whatever follows a separator and holds none. */
  lemma AfterLastAppend(x: string, c: char, y: string)
    requires c !in y
    ensures AfterLast(x + [c] + y, c) == y
  {
    var s := x + [c] + y;
    var a := AfterLast(s, c);
    AfterLastIsSuffix(s, c);
    assert a == s[|s| - |a|..];
    assert s[|s| - |y|..] == y;
    assert s[|s| - |y| - 1] == c;
    assert forall j :: |s| - |a| <= j < |s| ==> s[j] != c by {
      assert forall j :: |s| - |a| <= j < |s| ==> s[j] == a[j - (|s| - |a|)];
    }
    assert forall j :: |s| - |y| <= j < |s| ==> s[j] != c by {
      assert forall j :: |s| - |y| <= j < |s| ==> s[j] == y[j - (|s| - |y|)];
    }
  }

  /** JavaScript's WhiteSpace and LineTerminator characters (what `trim` and `\s` match). */
  predicate IsSpace(c: char)
  {
    var n := c as int;
    n == 0x09 || n == 0x0A || n == 0x0B || n == 0x0C || n == 0x0D || n == 0x20 || n == 0xA0
    || n == 0x1680 || (0x2000 <= n <= 0x200A) || n == 0x2028 || n == 0x2029 || n == 0x202F
    || n == 0x205F || n == 0x3000 || n == 0xFEFF
  }

  /** The characters `.` does not match in a JavaScript pattern. */
  predicate IsLineTerminator(c: char)
  {
    var n := c as int;
    n == 0x0A || n == 0x0D || n == 0x2028 || n == 0x2029
  }

  function TrimStart(s: string): (r: string)
    ensures |r| <= |s| && r == s[|s| - |r|..]
    ensures r == [] || !IsSpace(r[0])
    ensures forall i :: 0 <= i < |s| - |r| ==> IsSpace(s[i])
  {
    if |s| > 0 && IsSpace(s[0]) then TrimStart(s[1..]) else s
  }

  function TrimEnd(s: string): (r: string)
    ensures |r| <= |s| && r == s[..|r|]
    ensures r == [] || !IsSpace(r[|r| - 1])
    ensures forall i :: |r| <= i < |s| ==> IsSpace(s[i])
  {
    if |s| > 0 && IsSpace(s[|s| - 1]) then TrimEnd(s[..|s| - 1]) else s
  }

  /** `s.trim()`. */
  function Trim(s: string): (r: string)
    ensures r == [] || (!IsSpace(r[0]) && !IsSpace(r[|r| - 1]))
    ensures forall c :: c in r ==> c in s
  {
    TrimEnd(TrimStart(s))
  }

  /** Whatever is appended last is a suffix. */
  lemma EndsWithAppended(x: string, t: string)
    ensures EndsWith(x + t, t)
  {
    assert (x + t)[|x|..] == t;
  }

  lemma ConsSlice(u: string, x: string)
    requires |u| > 0
    ensures [u[0]] + (u[1..] + x) == u + x
  {
    assert u == [u[0]] + u[1..];
  }

  lemma PrefixPlusOne(u: string, x: string)
    requires |x| > 0
    ensures (u + x)[..|u| + 1] == u + [x[0]]
  {
  }

  /** Replace the text between `a` and `b` by `t` (CodeMirror's replaceRange on a flat buffer). */
  function Splice(s: string, a: nat, b: nat, t: string): (r: string)
    requires a <= b <= |s|
    ensures |r| == |s| - (b - a) + |t|
    ensures r[..a] == s[..a] && r[a..a + |t|] == t && r[a + |t|..] == s[b..]
  {
    s[..a] + t + s[b..]
  }

  /** `s.replace(t, rep)` with a string pattern: the first occurrence of `t` becomes `rep`. */
  function ReplaceFirst(s: string, t: string, rep: string): (r: string)
    ensures IndexOf(s, t, 0) == -1 ==> r == s
    ensures IndexOf(s, t, 0) >= 0 ==> |r| == |s| - |t| + |rep|
  {
    var i := IndexOf(s, t, 0);
    if i < 0 then s else Splice(s, i, i + |t|, rep)
  }

  /** Where the pattern occurs, its first occurrence is cut out and the replacement put in. */
  lemma ReplaceFirstAt(s: string, t: string, rep: string, i: nat)
    requires i == IndexOf(s, t, 0)
    ensures ReplaceFirst(s, t, rep) == s[..i] + rep + s[i + |t|..]
  {
  }

  /** Inserting in front of a middle part. */
  lemma InsertFront(b: string, m: string, e: string, t: string)
    ensures Splice(b + m + e, |b|, |b|, t) == b + (t + m) + e
  {
    var s := b + m + e;
    assert s[..|b|] == b && s[|b|..] == m + e;
  }

  lemma OccursInMiddle(a: string, m: string, b: string, t: string, j: nat)
    requires OccursAt(m, t, j)
    ensures OccursAt(a + m + b, t, |a| + j)
  {
    assert (a + m + b)[|a| + j..|a| + j + |t|] == m[j..j + |t|];
  }

  /** The text changes exactly when the pattern occurs and differs from its replacement. */
  lemma ReplaceFirstChanges(s: string, t: string, rep: string)
    ensures ReplaceFirst(s, t, rep) != s <==> IndexOf(s, t, 0) >= 0 && rep != t
  {
    var i := IndexOf(s, t, 0);
    if i >= 0 {
      var r := ReplaceFirst(s, t, rep);
      assert s[i..i + |t|] == t;
      if rep == t {
        assert s == s[..i] + s[i..i + |t|] + s[i + |t|..];
      } else if |rep| == |t| {
        assert r[i..i + |rep|] == rep;
      }
    }
  }

  /** Replacing back, where the replacement is now first found, restores the text. */
  lemma ReplaceFirstUndo(s: string, t: string, rep: string)
    requires IndexOf(s, t, 0) >= 0
    requires IndexOf(ReplaceFirst(s, t, rep), rep, 0) == IndexOf(s, t, 0)
    ensures ReplaceFirst(ReplaceFirst(s, t, rep), rep, t) == s
  {
    var i := IndexOf(s, t, 0);
    var r := ReplaceFirst(s, t, rep);
    assert s[i..i + |t|] == t;
    assert r[..i] == s[..i] && r[i + |rep|..] == s[i + |t|..];
    assert s == s[..i] + t + s[i + |t|..];
  }

  /** A pattern whose first character the text lacks does not occur in it. */
  lemma AbsentLead(s: string, t: string)
    requires |t| > 0 && t[0] !in s
    ensures IndexOf(s, t, 0) == -1
  {
  }

  /** `s.replace(/a/g, b)` for single characters. */
  function ReplaceChar(s: string, a: char, b: char): string
  {
    seq(|s|, i requires 0 <= i < |s| => if s[i] == a then b else s[i])
  }

  /** The number of times `c` occurs in `s`. */
  function CountChar(s: string, c: char): nat
  {
    if |s| == 0 then 0 else CountChar(s[..|s| - 1], c) + (if s[|s| - 1] == c then 1 else 0)
  }

  lemma {:induction false} CountAppend(a: string, b: string, c: char)
    ensures CountChar(a + b, c) == CountChar(a, c) + CountChar(b, c)
    decreases |b|
  {
    if |b| == 0 {
      assert a + b == a;
    } else {
      CountAppend(a, b[..|b| - 1], c);
      assert (a + b)[..|a + b| - 1] == a + b[..|b| - 1];
    }
  }

  lemma {:induction false} CountAbsent(s: string, c: char)
    requires c !in s
    ensures CountChar(s, c) == 0
  {
    if |s| > 0 {
      CountAbsent(s[..|s| - 1], c);
    }
  }

  /** A split has one more part than the string has separators. */
  lemma {:induction false} SplitCount(s: string, c: char)
    ensures |Split(s, c)| == CountChar(s, c) + 1
    decreases |s|
  {
    var k := FindChar(s, 0, c);
    if k == |s| {
      assert c !in s;
      CountAbsent(s, c);
    } else {
      SplitCount(s[k + 1..], c);
      assert s == s[..k] + [c] + s[k + 1..];
      CountAppend(s[..k] + [c], s[k + 1..], c);
      CountAppend(s[..k], [c], c);
      assert c !in s[..k];
      CountAbsent(s[..k], c);
      assert CountChar([c], c) == 1 by {
        assert [c][..0] == [];
      }
    }
  }

  function DigitChar(d: nat): char
    requires d < 10
  {
    ('0' as int + d) as char
  }

  /** `String(n)` for a non-negative integer. */
  function NatToString(n: nat): (r: string)
    ensures |r| >= 1 && AllDigits(r)
  {
    if n < 10 then [DigitChar(n)] else NatToString(n / 10) + [DigitChar(n % 10)]
  }

  /** `parseInt(d, 10)` on a non-empty run of digits. */
  function ParseDigits(d: string): nat
    requires AllDigits(d)
  {
    if |d| == 0 then 0 else ParseDigits(d[..|d| - 1]) * 10 + (d[|d| - 1] as int - '0' as int)
  }

  lemma {:induction false} ParseNatToString(n: nat)
    ensures ParseDigits(NatToString(n)) == n
  {
    if n >= 10 {
      ParseNatToString(n / 10);
      var r := NatToString(n);
      assert r[..|r| - 1] == NatToString(n / 10);
    }
  }

  /** `s[i..i+n][a..b]` is `s[i+a..i+b]`. */
  lemma SliceOfSlice(s: string, i: nat, n: nat, a: nat, b: nat, ia: nat, ib: nat)
    requires i + n <= |s| && a <= b <= n && ia == i + a && ib == i + b
    ensures s[i..i + n][a..b] == s[ia..ib]
  {
    var t := s[i..i + n][a..b];
    assert forall k :: 0 <= k < |t| ==> t[k] == s[ia + k];
  }

  lemma CopyChar(s: string, i: nat, r: string, k: nat, ik: nat)
    requires i + |r| <= |s| && s[i..i + |r|] == r && k < |r| && ik == i + k
    ensures s[ik] == r[k]
  {
    assert s[i..i + |r|][k] == s[ik];
  }

  /** A property of the characters `r[a..b]` holds of their copy in `s`. */
  lemma CopyKeeps(s: string, i: nat, r: string, a: nat, b: nat, ia: nat, ib: nat, P: char -> bool)
    requires i + |r| <= |s| && s[i..i + |r|] == r && a <= b <= |r| && ia == i + a && ib == i + b
    requires forall j :: a <= j < b ==> P(r[j])
    ensures forall j :: ia <= j < ib ==> P(s[j])
  {
    forall j | ia <= j < ib ensures P(s[j]) {
      CopyChar(s, i, r, j - i, j);
    }
  }
}
