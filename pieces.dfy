// A note seen as a sequence of pieces, prose and image links, each link
// written with some number of `!`s before it; and what a matcher, the match
// a pattern gives at each position, finds in such a note.

module Pieces {
  import opened Common
  import opened Patterns

  /** A stretch of a note: prose, or an image link written without its `!`s. */
  datatype Piece = Prose(text: string) | Image(link: string)

  /** A link that one of the two shapes matches in full. */
  predicate IsImageLink(l: string)
  {
    EmbeddedCore(l, 0).Some? && EmbeddedCore(l, 0).value.end == |l|
  }

  function Bangs(n: nat): (r: string)
    ensures |r| == n && forall i :: 0 <= i < n ==> r[i] == '!'
  {
    if n == 0 then [] else Bangs(n - 1) + "!"
  }

  /** The note, with `n` `!`s written before every image link. */
  function Render(ps: seq<Piece>, n: nat): string
    decreases |ps|
  {
    if |ps| == 0 then []
    else
      (match ps[0]
       case Prose(t) => t
       case Image(l) => Bangs(n) + l) + Render(ps[1..], n)
  }

  predicate WellFormed(ps: seq<Piece>)
  {
    forall i :: 0 <= i < |ps| ==>
      match ps[i]
      case Prose(t) => '[' !in t
      case Image(l) => IsImageLink(l)
  }

  predicate ProseWithoutBang(ps: seq<Piece>)
  {
    forall i :: 0 <= i < |ps| ==> ps[i].Prose? ==> '!' !in ps[i].text
  }

  /** How many `!`s each link has after one scan over links that had `n`. */
  function NewBangs(b: bool, drop: bool, n: nat): nat
  {
    if drop then Kept(b, n) else Kept(b, n) + 1
  }

  /** How many of a link's `n` `!`s the pattern leaves before the match. */
  function Kept(b: bool, n: nat): nat
  {
    if b && n > 0 then n - 1 else n
  }

  /** A matcher: the match of a pattern starting at each position, if any. */
  type Matcher = nat -> Option<Match>

  /** What `at` finds at `k`. */
  function AtPos(at: Matcher, k: nat): Option<Match>
  {
    at(k)
  }

  /** The matcher finds exactly the links of the rendering of `ps` with `n` `!`s that
      `s` holds from `from` on: nothing in prose, nothing on the `!`s a link keeps, and
      each link, with its last `!` when the pattern takes it, where it stands.  Proofs
      state it through this non-recursive name, which is one and the same term wherever
      it is assumed or asserted. */
  predicate Finds(at: Matcher, b: bool, s: string, from: nat, ps: seq<Piece>, n: nat)
  {
    FindsEach(at, b, s, from, ps, n)
  }

  /** `Finds`, piece by piece. */
  predicate FindsEach(at: Matcher, b: bool, s: string, from: nat, ps: seq<Piece>, n: nat)
    decreases |ps|
  {
    from <= |s| &&
    if |ps| == 0 then from == |s|
    else
      match ps[0]
      case Prose(t) =>
        from + |t| <= |s| && s[from..from + |t|] == t
        && (forall k :: from <= k < from + |t| ==> at(k).None?)
        && FindsEach(at, b, s, from + |t|, ps[1..], n)
      case Image(l) =>
        var i := from + Kept(b, n);
        var e := from + n + |l|;
        i < e <= |s| && s[from..i] == Bangs(Kept(b, n)) && |l| > 0 && l[0] == '['
        && (forall k :: from <= k < i ==> at(k).None?)
        && at(i).Some? && at(i).value.end == e && at(i).value.text in {l, "!" + l}
        && FindsEach(at, b, s, e, ps[1..], n)
  }
}
