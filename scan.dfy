// The global-flag regular expression protocol: `exec` from `lastIndex`,
// `matchAll`, `match` and `replace` with a callback.  After a match ending at
// `e` the scan resumes at `e`; every pattern of the plugin matches at least one
// character, so this always makes progress.

module Scan {
  import opened Common
  import opened Patterns

  /** `exec` with `lastIndex == from`: the leftmost match starting at or after `from`. */
  function NextMatch(p: Pattern, s: string, from: nat): (r: Option<Match>)
    requires from <= |s|
    ensures r.Some? ==> from <= r.value.start < |s| && MatchAt(p, s, r.value.start) == r
    ensures forall k :: from <= k < |s| && (r.None? || k < r.value.start) ==> MatchAt(p, s, k).None?
    decreases |s| - from
  {
    if from == |s| then None
    else if MatchAt(p, s, from).Some? then MatchAt(p, s, from)
    else NextMatch(p, s, from + 1)
  }

  /** Matches in increasing order, pairwise disjoint, inside `[from, to]`. */
  predicate Chain(ms: seq<Match>, from: nat, to: nat)
    decreases |ms|
  {
    |ms| == 0 || (from <= ms[0].start < ms[0].end <= to && Chain(ms[1..], ms[0].end, to))
  }

  /** The successive matches `exec` returns from `from` until it fails. */
  function FindAll(p: Pattern, s: string, from: nat): (ms: seq<Match>)
    requires from <= |s|
    ensures Chain(ms, from, |s|)
    decreases |s| - from
  {
    match NextMatch(p, s, from)
    case None => []
    case Some(m) =>
      var ms := [m] + FindAll(p, s, m.end);
      assert ms[1..] == FindAll(p, s, m.end);
      ms
  }

  /** Each match the scan returns is the pattern's match at its own start. */
  lemma {:induction false} FindAllAt(p: Pattern, s: string, from: nat, k: nat)
    requires from <= |s| && k < |FindAll(p, s, from)|
    ensures var m := FindAll(p, s, from)[k]; m.start < |s| && MatchAt(p, s, m.start) == Some(m)
    decreases k
  {
    FindAllNext(p, s, from);
    var n := NextMatch(p, s, from).value;
    if k > 0 {
      FindAllAt(p, s, n.end, k - 1);
      assert FindAll(p, s, from)[k] == FindAll(p, s, n.end)[k - 1];
    }
  }

  /** Each match the scan returns is the text it spans. */
  lemma FoundSpan(p: Pattern, s: string, k: nat)
    requires k < |AllMatches(p, s)|
    ensures var m := AllMatches(p, s)[k]; m.start < m.end <= |s| && m.text == s[m.start..m.end]
  {
    FindAllAt(p, s, 0, k);
  }

  /** One `exec` call followed by the rest of the scan. */
  /** The next match from `from` is the one at `i` when nothing matches in between. */
  lemma NextMatchAt(p: Pattern, s: string, from: nat, i: nat)
    requires from <= i < |s| && MatchAt(p, s, i).Some?
    requires forall k :: from <= k < i ==> MatchAt(p, s, k).None?
    ensures NextMatch(p, s, from) == MatchAt(p, s, i)
  {
  }

  lemma FindAllNext(p: Pattern, s: string, from: nat)
    requires from <= |s|
    ensures NextMatch(p, s, from).None? ==> FindAll(p, s, from) == []
    ensures NextMatch(p, s, from).Some? ==>
              FindAll(p, s, from) == [NextMatch(p, s, from).value] + FindAll(p, s, NextMatch(p, s, from).value.end)
  {
  }

  function AllMatches(p: Pattern, s: string): seq<Match>
  {
    FindAll(p, s, 0)
  }

  /** Each match of a chain starts at or after the end of every earlier one. */
  lemma {:induction false} ChainOrdered(ms: seq<Match>, from: nat, to: nat)
    requires Chain(ms, from, to)
    ensures forall k :: 0 <= k < |ms| ==> from <= ms[k].start < ms[k].end <= to
    ensures forall j, k :: 0 <= j < k < |ms| ==> ms[j].end <= ms[k].start
    decreases |ms|
  {
    if |ms| > 0 {
      ChainOrdered(ms[1..], ms[0].end, to);
      assert forall k :: 1 <= k < |ms| ==> ms[k] == ms[1..][k - 1];
    }
  }

  /** Completeness of the scan: wherever the pattern could match, that position is
      the start of a found match or lies inside an earlier found match. */
  lemma {:induction false} FindAllCovers(p: Pattern, s: string, from: nat, k: nat)
    requires from <= k < |s| && MatchAt(p, s, k).Some?
    ensures exists j :: 0 <= j < |FindAll(p, s, from)| && FindAll(p, s, from)[j].start <= k < FindAll(p, s, from)[j].end
    decreases |s| - from
  {
    var ms := FindAll(p, s, from);
    var n := NextMatch(p, s, from);
    assert n.Some?;
    var m := n.value;
    assert ms[0] == m;
    if k >= m.end {
      FindAllCovers(p, s, m.end, k);
      var rest := FindAll(p, s, m.end);
      assert ms[1..] == rest;
      var j :| 0 <= j < |rest| && rest[j].start <= k < rest[j].end;
      assert ms[j + 1] == rest[j];
    }
  }

  /** `s.replace(regex, f)` over a chain of matches, from index `from` on. */
  function ReplaceMatches(s: string, ms: seq<Match>, from: nat, f: Match -> string): string
    requires from <= |s| && Chain(ms, from, |s|)
    decreases |ms|
  {
    if |ms| == 0 then s[from..]
    else s[from..ms[0].start] + f(ms[0]) + ReplaceMatches(s, ms[1..], ms[0].end, f)
  }

  /** `s.replace(globalRegex, f)`. */
  function ReplaceAll(p: Pattern, s: string, f: Match -> string): string
  {
    ReplaceMatches(s, AllMatches(p, s), 0, f)
  }

  /** A string with a single match: only the text that match spans is replaced. */
  lemma ReplaceSingle(p: Pattern, s: string, f: Match -> string, m: Match)
    requires AllMatches(p, s) == [m]
    ensures m.start < m.end <= |s| && m.text == s[m.start..m.end]
    ensures ReplaceAll(p, s, f) == s[..m.start] + f(m) + s[m.end..]
  {
    FoundSpan(p, s, 0);
    var ms := AllMatches(p, s);
    assert ms[1..] == [];
    assert ReplaceMatches(s, ms[1..], m.end, f) == s[m.end..];
    assert s[0..m.start] == s[..m.start];
  }

  function MatchText(m: Match): string { m.text }

  /** Replacing every match by its own text gives back the original string. */
  lemma {:induction false} ReplaceByTextIdentity(s: string, ms: seq<Match>, from: nat)
    requires from <= |s| && Chain(ms, from, |s|)
    requires forall k :: 0 <= k < |ms| ==> ms[k].start <= ms[k].end <= |s| && ms[k].text == s[ms[k].start..ms[k].end]
    ensures ReplaceMatches(s, ms, from, MatchText) == s[from..]
    decreases |ms|
  {
    if |ms| > 0 {
      var m := ms[0];
      assert forall k :: 0 <= k < |ms| - 1 ==> ms[1..][k] == ms[k + 1];
      ReplaceByTextIdentity(s, ms[1..], m.end);
      assert s[from..] == s[from..m.start] + s[m.start..m.end] + s[m.end..];
    }
  }

  /** A pattern that matches at no position has no matches. */
  lemma NoMatchAnywhere(p: Pattern, s: string)
    requires forall k :: 0 <= k < |s| ==> MatchAt(p, s, k).None?
    ensures AllMatches(p, s) == []
  {
    assert NextMatch(p, s, 0).None?;
  }

  /** A pattern with no match leaves `replace` without effect. */
  lemma NoMatchNoChange(p: Pattern, s: string, f: Match -> string)
    requires AllMatches(p, s) == []
    ensures ReplaceAll(p, s, f) == s
  {
  }
}
