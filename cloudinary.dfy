// The Cloudinary service: when it counts as configured, the delivery URL it
// builds, the form it posts for an upload or a deletion, and the request
// signature — the string-valued form fields sorted by key as `key=value`
// joined by `&`, the API secret appended, digested with SHA-1 and written as
// lower-case hexadecimal.  The text encoder and the digest are parameters.

module Cloudinary {
  import opened Common
  import opened Text
  import opened Settings
  import opened Media

  newtype byte = b: int | 0 <= b < 256

  /** `!!s` for an optional string. */
  predicate Truthy(s: Option<string>)
  {
    s.Some? && s.value != ""
  }

  /** `isConfigured`: cloud name and API key, and a secret or an unsigned preset. */
  predicate IsConfigured(s: Option<CloudinarySettings>)
  {
    s.Some? && s.value.cloudName != "" && s.value.apiKey != "" && (s.value.apiSecret != "" || Truthy(s.value.uploadPreset))
  }

  /** `getUrl`: refused when not configured; the transformation, when given, is one path
      segment before the public id. */
  function GetUrl(s: Option<CloudinarySettings>, publicId: string, transformation: Option<string>): (r: Result<string>)
    ensures r.Err? <==> !IsConfigured(s)
    ensures r.Ok? && !Truthy(transformation) ==>
              r.value == "https://res.cloudinary.com/" + s.value.cloudName + "/image/upload/" + publicId
    ensures r.Ok? && Truthy(transformation) ==>
              r.value == "https://res.cloudinary.com/" + s.value.cloudName + "/image/upload/" + transformation.value + "/" + publicId
  {
    if !IsConfigured(s) then Err("Configuration Cloudinary manquante")
    else
      var base := "https://res.cloudinary.com/" + s.value.cloudName;
      if !Truthy(transformation) then Ok(base + "/image/upload/" + publicId)
      else Ok(base + "/image/upload/" + transformation.value + "/" + publicId)
  }

  /** A transformation is the same as a public id prefixed by that transformation. */
  lemma GetUrlTransformation(s: Option<CloudinarySettings>, publicId: string, t: string)
    requires IsConfigured(s) && t != ""
    ensures GetUrl(s, publicId, Some(t)) == GetUrl(s, t + "/" + publicId, None)
  {
    var base := "https://res.cloudinary.com/" + s.value.cloudName;
    assert base + "/image/upload/" + t + "/" + publicId == base + "/image/upload/" + (t + "/" + publicId);
  }

  /** A `FormData` entry: a string or a file. */
  datatype FormValue = Text(text: string) | Blob(fileName: string)
  datatype FormField = FormField(key: string, value: FormValue)

  /** A `[key, value]` pair of the parameters that are signed. */
  type Entry = (string, string)

  /** The key occurs among the entries. */
  predicate HasKey(entries: seq<Entry>, key: string)
  {
    exists i :: 0 <= i < |entries| && entries[i].0 == key
  }

  /** Entries with pairwise distinct keys. */
  predicate DistinctKeys(entries: seq<Entry>)
  {
    forall i, j :: 0 <= i < j < |entries| ==> entries[i].0 != entries[j].0
  }

  /** `r` is `entries` with the value of `key` set to `v`: in place when the key is
      present, appended otherwise, every other entry untouched. */
  predicate SetsEntry(entries: seq<Entry>, key: string, v: string, r: seq<Entry>)
  {
    && |r| == |entries| + (if HasKey(entries, key) then 0 else 1)
    && (forall i :: 0 <= i < |entries| ==> r[i].0 == entries[i].0)
    && (forall i :: 0 <= i < |entries| && entries[i].0 != key ==> r[i] == entries[i])
    && (forall i :: 0 <= i < |r| && r[i].0 == key ==> r[i].1 == v)
    && (!HasKey(entries, key) ==> r[|entries|] == (key, v))
    && DistinctKeys(r)
  }

  /** `Map.set(key, v)` on the entries of a map. */
  function SetEntry(entries: seq<Entry>, key: string, v: string): (r: seq<Entry>)
    requires DistinctKeys(entries)
    ensures SetsEntry(entries, key, v, r)
  {
    if |entries| == 0 then [(key, v)]
    else
      HasKeyCons(entries, key);
      if entries[0].0 == key then
        SetAtHead(entries, key, v);
        [(key, v)] + entries[1..]
      else
        var rest := SetEntry(entries[1..], key, v);
        SetBelowHead(entries, key, v, rest);
        [entries[0]] + rest
  }

  lemma SetAtHead(entries: seq<Entry>, key: string, v: string)
    requires |entries| > 0 && DistinctKeys(entries) && entries[0].0 == key
    ensures SetsEntry(entries, key, v, [(key, v)] + entries[1..])
  {
    assert HasKey(entries, key);
  }

  lemma SetBelowHead(entries: seq<Entry>, key: string, v: string, rest: seq<Entry>)
    requires |entries| > 0 && DistinctKeys(entries) && entries[0].0 != key
    requires HasKey(entries, key) <==> HasKey(entries[1..], key)
    requires SetsEntry(entries[1..], key, v, rest)
    ensures SetsEntry(entries, key, v, [entries[0]] + rest)
  {
    KeysKept(entries, rest);
  }

  lemma HasKeyCons(entries: seq<Entry>, key: string)
    requires |entries| > 0 && DistinctKeys(entries)
    ensures HasKey(entries, key) <==> entries[0].0 == key || HasKey(entries[1..], key)
    ensures entries[0].0 == key ==> !HasKey(entries[1..], key)
  {
    if HasKey(entries, key) && entries[0].0 != key {
      var i :| 0 <= i < |entries| && entries[i].0 == key;
      assert entries[1..][i - 1].0 == key;
    }
    if HasKey(entries[1..], key) {
      var k :| 0 <= k < |entries[1..]| && entries[1..][k].0 == key;
      assert entries[k + 1].0 == key;
    }
  }

  /** A tail whose keys are those of `entries[1..]`, possibly with one more that is not
      the head's key, holds no copy of the head's key. */
  lemma KeysKept(entries: seq<Entry>, rest: seq<Entry>)
    requires |entries| > 0 && DistinctKeys(entries)
    requires |entries| - 1 <= |rest| <= |entries|
    requires forall i :: 0 <= i < |entries| - 1 ==> rest[i].0 == entries[1..][i].0
    requires |rest| == |entries| ==> rest[|entries| - 1].0 != entries[0].0
    ensures forall i :: 0 <= i < |rest| ==> rest[i].0 != entries[0].0
  {
    forall i | 0 <= i < |rest| ensures rest[i].0 != entries[0].0 {
      if i < |entries| - 1 {
        assert rest[i].0 == entries[i + 1].0;
      }
    }
  }

  /** The `params` map of `generateSignature`: every string-valued field, in the order
      of first insertion, holding the last value given to its key; files are skipped. */
  function Params(fields: seq<FormField>): (r: seq<Entry>)
    ensures DistinctKeys(r)
    ensures forall i :: 0 <= i < |r| ==> exists j :: 0 <= j < |fields| && fields[j] == FormField(r[i].0, Text(r[i].1))
    decreases |fields|
  {
    if |fields| == 0 then []
    else
      var prefix := Params(fields[..|fields| - 1]);
      var last := fields[|fields| - 1];
      if last.value.Text? then
        var r := SetEntry(prefix, last.key, last.value.text);
        assert forall i :: 0 <= i < |r| ==> exists j :: 0 <= j < |fields| && fields[j] == FormField(r[i].0, Text(r[i].1)) by {
          forall i | 0 <= i < |r|
            ensures exists j :: 0 <= j < |fields| && fields[j] == FormField(r[i].0, Text(r[i].1))
          {
            if r[i].0 == last.key {
              assert fields[|fields| - 1] == FormField(r[i].0, Text(r[i].1));
            } else {
              assert r[i] == prefix[i];
              var j :| 0 <= j < |fields| - 1 && fields[..|fields| - 1][j] == FormField(prefix[i].0, Text(prefix[i].1));
              assert fields[j] == FormField(r[i].0, Text(r[i].1));
            }
          }
        }
        r
      else
        assert forall i :: 0 <= i < |prefix| ==> exists j :: 0 <= j < |fields| && fields[j] == FormField(prefix[i].0, Text(prefix[i].1)) by {
          forall i | 0 <= i < |prefix|
            ensures exists j :: 0 <= j < |fields| && fields[j] == FormField(prefix[i].0, Text(prefix[i].1))
          {
            var k :| 0 <= k < |fields| - 1 && fields[..|fields| - 1][k] == FormField(prefix[i].0, Text(prefix[i].1));
            assert fields[k] == FormField(prefix[i].0, Text(prefix[i].1));
          }
        }
        prefix
  }

  /** Code-unit order on strings: a proper prefix comes first, otherwise the first
      differing character decides. */
  predicate Less(a: string, b: string)
    decreases |a|
  {
    |b| > 0 && (|a| == 0 || a[0] < b[0] || (a[0] == b[0] && Less(a[1..], b[1..])))
  }

  lemma {:induction false} LessIrreflexive(a: string)
    ensures !Less(a, a)
    decreases |a|
  {
    if |a| > 0 {
      LessIrreflexive(a[1..]);
    }
  }

  lemma {:induction false} LessTotal(a: string, b: string)
    requires a != b
    ensures Less(a, b) || Less(b, a)
    decreases |a|
  {
    if |a| > 0 && |b| > 0 && a[0] == b[0] {
      assert a == [a[0]] + a[1..] && b == [b[0]] + b[1..];
      LessTotal(a[1..], b[1..]);
    }
  }

  lemma {:induction false} LessTransitive(a: string, b: string, c: string)
    requires Less(a, b) && Less(b, c)
    ensures Less(a, c)
    decreases |a|
  {
    if |a| > 0 && a[0] == b[0] && b[0] == c[0] {
      LessTransitive(a[1..], b[1..], c[1..]);
    }
  }

  lemma LessAsymmetric(a: string, b: string)
    requires Less(a, b)
    ensures !Less(b, a)
  {
    if Less(b, a) {
      LessTransitive(a, b, a);
      LessIrreflexive(a);
    }
  }

  /** Entries in strictly increasing key order. */
  predicate SortedByKey(entries: seq<Entry>)
  {
    forall i, j :: 0 <= i < j < |entries| ==> Less(entries[i].0, entries[j].0)
  }

  /** One step of the insertion sort that `sort` performs here. */
  function Insert(e: Entry, sorted: seq<Entry>): (r: seq<Entry>)
    requires SortedByKey(sorted) && forall i :: 0 <= i < |sorted| ==> sorted[i].0 != e.0
    ensures SortedByKey(r)
    ensures multiset(r) == multiset(sorted) + multiset{e}
  {
    if |sorted| == 0 then [e]
    else if Less(e.0, sorted[0].0) then
      forall j | 0 < j < |sorted| ensures Less(e.0, sorted[j].0) {
        LessTransitive(e.0, sorted[0].0, sorted[j].0);
      }
      [e] + sorted
    else
      LessTotal(e.0, sorted[0].0);
      var rest := Insert(e, sorted[1..]);
      InsertBelowHead(e, sorted, rest);
      [sorted[0]] + rest
  }

  /** Behind a head smaller than `e`, the insertion into the tail keeps the order. */
  lemma InsertBelowHead(e: Entry, sorted: seq<Entry>, rest: seq<Entry>)
    requires |sorted| > 0 && SortedByKey(sorted) && Less(sorted[0].0, e.0)
    requires SortedByKey(rest) && multiset(rest) == multiset(sorted[1..]) + multiset{e}
    ensures SortedByKey([sorted[0]] + rest)
    ensures multiset([sorted[0]] + rest) == multiset(sorted) + multiset{e}
  {
    assert sorted == [sorted[0]] + sorted[1..];
    forall j | 0 <= j < |rest| ensures Less(sorted[0].0, rest[j].0) {
      assert rest[j] in multiset(rest);
      assert rest[j] in multiset(sorted[1..]) || rest[j] == e;
      if rest[j] != e {
        var k :| 0 <= k < |sorted[1..]| && sorted[1..][k] == rest[j];
        assert sorted[k + 1] == rest[j];
      }
    }
  }

  /** `Array.from(params.entries()).sort(([a], [b]) => a.localeCompare(b))`. */
  function SortByKey(entries: seq<Entry>): (r: seq<Entry>)
    requires DistinctKeys(entries)
    ensures SortedByKey(r)
    ensures multiset(r) == multiset(entries)
  {
    if |entries| == 0 then []
    else
      var rest := SortByKey(entries[1..]);
      HeadKeyFresh(entries, rest);
      Insert(entries[0], rest)
  }

  /** A permutation of the tail holds no copy of the head's key, and with the head it is
      a permutation of the whole. */
  lemma HeadKeyFresh(entries: seq<Entry>, rest: seq<Entry>)
    requires |entries| > 0 && DistinctKeys(entries) && multiset(rest) == multiset(entries[1..])
    ensures forall i :: 0 <= i < |rest| ==> rest[i].0 != entries[0].0
    ensures multiset(rest) + multiset{entries[0]} == multiset(entries)
  {
    forall i | 0 <= i < |rest| ensures rest[i].0 != entries[0].0 {
      assert rest[i] in multiset(entries[1..]);
      var k :| 0 <= k < |entries[1..]| && entries[1..][k] == rest[i];
      assert entries[k + 1] == rest[i];
    }
    assert entries == [entries[0]] + entries[1..];
  }

  /** `.map(([key, value]) => \`${key}=${value}\`).join('&')`. */
  function JoinPairs(entries: seq<Entry>): string
  {
    if |entries| == 0 then ""
    else if |entries| == 1 then entries[0].0 + "=" + entries[0].1
    else entries[0].0 + "=" + entries[0].1 + "&" + JoinPairs(entries[1..])
  }

  /** The text that is digested, before the secret is appended. */
  function CanonicalString(fields: seq<FormField>): string
  {
    JoinPairs(SortByKey(Params(fields)))
  }

  /** `b.toString(16).padStart(2, '0')`. */
  function HexDigit(d: int): char
    requires 0 <= d < 16
  {
    if d < 10 then ('0' as int + d) as char else ('a' as int + d - 10) as char
  }

  predicate IsLowerHex(c: char)
  {
    '0' <= c <= '9' || 'a' <= c <= 'f'
  }

  function HexValue(c: char): int
    requires IsLowerHex(c)
  {
    if c <= '9' then c as int - '0' as int else c as int - 'a' as int + 10
  }

  /** Two lower-case hexadecimal digits per byte, high digit first. */
  function Hex(bytes: seq<byte>): (r: string)
    ensures |r| == 2 * |bytes|
    ensures forall i :: 0 <= i < |r| ==> IsLowerHex(r[i])
  {
    if |bytes| == 0 then ""
    else [HexDigit(bytes[0] as int / 16), HexDigit(bytes[0] as int % 16)] + Hex(bytes[1..])
  }

  /** Reading the digits back, two at a time. */
  function UnHex(s: string): seq<byte>
    requires |s| % 2 == 0 && forall i :: 0 <= i < |s| ==> IsLowerHex(s[i])
  {
    if |s| == 0 then []
    else [(HexValue(s[0]) * 16 + HexValue(s[1])) as byte] + UnHex(s[2..])
  }

  /** The hexadecimal rendering loses nothing. */
  lemma {:induction false} HexRoundTrip(bytes: seq<byte>)
    ensures UnHex(Hex(bytes)) == bytes
  {
    if |bytes| > 0 {
      HexRoundTrip(bytes[1..]);
      var h := Hex(bytes);
      assert h[2..] == Hex(bytes[1..]);
    }
  }

  /** The SHA-1 digest of the canonical string followed by the secret; `encode` is the
      UTF-8 text encoder and `sha1` the digest. */
  function Digest(fields: seq<FormField>, secret: string, encode: string -> seq<byte>, sha1: seq<byte> -> seq<byte>)
    : seq<byte>
  {
    sha1(encode(CanonicalString(fields) + secret))
  }

  /** `generateSignature(formData, apiSecret)`: the digest in lower-case hexadecimal. */
  function Signature(fields: seq<FormField>, secret: string, encode: string -> seq<byte>, sha1: seq<byte> -> seq<byte>): (r: string)
    ensures |r| == 2 * |Digest(fields, secret, encode, sha1)|
    ensures forall i :: 0 <= i < |r| ==> IsLowerHex(r[i])
  {
    Hex(Digest(fields, secret, encode, sha1))
  }

  /** The signature reads back as the digest it renders. */
  lemma SignatureReadsBack(fields: seq<FormField>, secret: string, encode: string -> seq<byte>, sha1: seq<byte> -> seq<byte>)
    ensures UnHex(Signature(fields, secret, encode, sha1)) == Digest(fields, secret, encode, sha1)
  {
    HexRoundTrip(Digest(fields, secret, encode, sha1));
  }

  lemma JoinTwo(k1: string, v1: string, k2: string, v2: string)
    ensures JoinPairs([(k1, v1), (k2, v2)]) == k1 + "=" + v1 + "&" + k2 + "=" + v2
  {
    var e := [(k1, v1), (k2, v2)];
    assert e[1..] == [(k2, v2)];
    assert JoinPairs(e) == k1 + "=" + v1 + "&" + (k2 + "=" + v2);
  }

  /** The parameters of two string fields with different keys, in insertion order. */
  lemma ParamsTwo(k1: string, v1: string, k2: string, v2: string)
    requires k1 != k2
    ensures Params([FormField(k1, Text(v1)), FormField(k2, Text(v2))]) == [(k1, v1), (k2, v2)]
  {
    var f := [FormField(k1, Text(v1)), FormField(k2, Text(v2))];
    assert f[..1][..0] == [];
    assert Params(f[..1]) == [(k1, v1)];
    assert !HasKey([(k1, v1)], k2);
  }

  /** Two string fields are listed in key order whichever was appended first. */
  lemma CanonicalSortsKeys(k1: string, v1: string, k2: string, v2: string)
    requires Less(k1, k2)
    ensures CanonicalString([FormField(k1, Text(v1)), FormField(k2, Text(v2))]) == k1 + "=" + v1 + "&" + k2 + "=" + v2
    ensures CanonicalString([FormField(k2, Text(v2)), FormField(k1, Text(v1))]) == k1 + "=" + v1 + "&" + k2 + "=" + v2
  {
    LessIrreflexive(k1);
    LessAsymmetric(k1, k2);
    JoinTwo(k1, v1, k2, v2);
    ParamsTwo(k1, v1, k2, v2);
    ParamsTwo(k2, v2, k1, v1);
    var e := [(k1, v1), (k2, v2)];
    var d := [(k2, v2), (k1, v1)];
    assert SortByKey(e) == e by {
      assert e[1..] == [(k2, v2)];
      assert SortByKey([(k2, v2)]) == [(k2, v2)];
    }
    assert SortByKey(d) == e by {
      assert d[1..] == [(k1, v1)];
      assert SortByKey([(k1, v1)]) == [(k1, v1)];
      assert Insert((k2, v2), [(k1, v1)]) == [(k1, v1)] + Insert((k2, v2), []);
    }
  }

  /** A key given twice is signed once, with the value given last. */
  lemma CanonicalLastValueWins(k: string, v1: string, v2: string)
    ensures CanonicalString([FormField(k, Text(v1)), FormField(k, Text(v2))]) == k + "=" + v2
  {
    var f := [FormField(k, Text(v1)), FormField(k, Text(v2))];
    assert f[..1][..0] == [];
    assert Params(f[..1]) == [(k, v1)];
    assert HasKey([(k, v1)], k);
    assert Params(f) == [(k, v2)];
    assert SortByKey([(k, v2)]) == [(k, v2)];
  }

  /** `params.get(key)` on the entries of a map. */
  function Lookup(entries: seq<Entry>, key: string): Option<string>
  {
    if |entries| == 0 then None
    else if entries[0].0 == key then Some(entries[0].1)
    else Lookup(entries[1..], key)
  }

  /** The text last appended under `key`, if any: what the `set` calls leave for it. */
  function LastText(fields: seq<FormField>, key: string): Option<string>
    decreases |fields|
  {
    if |fields| == 0 then None
    else
      var last := fields[|fields| - 1];
      if last.key == key && last.value.Text? then Some(last.value.text)
      else LastText(fields[..|fields| - 1], key)
  }

  /** With distinct keys, a lookup finds exactly the pairs the entries hold. */
  lemma {:induction false} LookupMember(entries: seq<Entry>, key: string, v: string)
    requires DistinctKeys(entries)
    ensures Lookup(entries, key) == Some(v) <==> (key, v) in entries
    decreases |entries|
  {
    if |entries| > 0 {
      var tail := entries[1..];
      assert entries == [entries[0]] + tail;
      assert DistinctKeys(tail) by {
        forall i, j | 0 <= i < j < |tail| ensures tail[i].0 != tail[j].0 {
          assert tail[i] == entries[i + 1] && tail[j] == entries[j + 1];
        }
      }
      LookupMember(tail, key, v);
    }
  }

  /** After `Map.set(k, v)`, `k` reads `v` and every other key reads as before. */
  lemma {:induction false} SetEntryLookup(entries: seq<Entry>, k: string, v: string, key: string)
    requires DistinctKeys(entries)
    ensures Lookup(SetEntry(entries, k, v), key) == if key == k then Some(v) else Lookup(entries, key)
    decreases |entries|
  {
    if |entries| > 0 {
      HasKeyCons(entries, k);
      if entries[0].0 != k {
        var tail := entries[1..];
        assert DistinctKeys(tail) by {
          forall i, j | 0 <= i < j < |tail| ensures tail[i].0 != tail[j].0 {
            assert tail[i] == entries[i + 1] && tail[j] == entries[j + 1];
          }
        }
        SetEntryLookup(tail, k, v, key);
        var rest := SetEntry(tail, k, v);
        assert ([entries[0]] + rest)[1..] == rest;
      } else {
        assert ([(k, v)] + entries[1..])[1..] == entries[1..];
      }
    }
  }

  /** Each key of `params` holds the text last appended under it, and a key no string
      field carries is absent. */
  lemma {:induction false} ParamsLookup(fields: seq<FormField>, key: string)
    ensures Lookup(Params(fields), key) == LastText(fields, key)
    decreases |fields|
  {
    if |fields| > 0 {
      var prefix := fields[..|fields| - 1];
      ParamsLookup(prefix, key);
      var last := fields[|fields| - 1];
      if last.value.Text? {
        SetEntryLookup(Params(prefix), last.key, last.value.text, key);
      }
    }
  }

  /** Every string field's key is in `params`. */
  lemma {:induction false} ParamsComplete(fields: seq<FormField>)
    ensures forall j :: 0 <= j < |fields| && fields[j].value.Text? ==> HasKey(Params(fields), fields[j].key)
    decreases |fields|
  {
    if |fields| > 0 {
      var prefix := fields[..|fields| - 1];
      ParamsComplete(prefix);
      var last := fields[|fields| - 1];
      var p := Params(prefix);
      var r := Params(fields);
      forall j | 0 <= j < |fields| && fields[j].value.Text? ensures HasKey(r, fields[j].key) {
        var key := fields[j].key;
        if j == |fields| - 1 {
          if HasKey(p, key) {
            var i :| 0 <= i < |p| && p[i].0 == key;
            assert r[i].0 == key;
          } else {
            assert r[|p|] == (key, last.value.text);
          }
        } else {
          assert prefix[j] == fields[j];
          var i :| 0 <= i < |p| && p[i].0 == key;
          assert r[i].0 == key;
        }
      }
    }
  }

  lemma HeadIn(s: seq<Entry>)
    requires |s| > 0
    ensures s[0] in s
  {
  }

  /** Two key-sorted sequences holding the same pairs are equal. */
  lemma {:induction false} SortedUnique(a: seq<Entry>, b: seq<Entry>)
    requires SortedByKey(a) && SortedByKey(b)
    requires forall x :: x in a <==> x in b
    ensures a == b
    decreases |a|
  {
    if |a| == 0 || |b| == 0 {
      if |b| > 0 {
        HeadIn(b);
      }
      if |a| > 0 {
        HeadIn(a);
      }
    } else {
      assert a[0] in b;
      assert |b| > 0;
      var j :| 0 <= j < |b| && b[j] == a[0];
      assert b[0] in a;
      var i :| 0 <= i < |a| && a[i] == b[0];
      if j > 0 {
        if i > 0 {
          LessAsymmetric(b[0].0, a[0].0);
        } else {
          LessIrreflexive(b[0].0);
        }
      }
      assert a[0] == b[0];
      forall x ensures x in a[1..] <==> x in b[1..] {
        if x in a[1..] {
          var k :| 0 <= k < |a[1..]| && a[1..][k] == x;
          assert Less(a[0].0, a[k + 1].0);
          LessIrreflexive(x.0);
          assert x in b;
        }
        if x in b[1..] {
          var k :| 0 <= k < |b[1..]| && b[1..][k] == x;
          assert Less(b[0].0, b[k + 1].0);
          LessIrreflexive(x.0);
          assert x in a;
        }
      }
      SortedUnique(a[1..], b[1..]);
      assert a == [a[0]] + a[1..] && b == [b[0]] + b[1..];
    }
  }

  /** The canonical string joins, in key order, exactly the pairs `key=value` whose value
      is the text last appended under that key. */
  lemma CanonicalListsLastValues(fields: seq<FormField>)
    ensures SortedByKey(SortByKey(Params(fields)))
    ensures CanonicalString(fields) == JoinPairs(SortByKey(Params(fields)))
    ensures forall k, v :: (k, v) in SortByKey(Params(fields)) <==> LastText(fields, k) == Some(v)
  {
    var p := Params(fields);
    var s := SortByKey(p);
    forall k, v ensures (k, v) in s <==> LastText(fields, k) == Some(v) {
      assert (k, v) in s <==> (k, v) in multiset(s);
      assert (k, v) in p <==> (k, v) in multiset(p);
      LookupMember(p, k, v);
      ParamsLookup(fields, k);
    }
  }

  /** Fields that leave every key the same last text sign the same canonical string,
      whatever order they were appended in. */
  lemma CanonicalOrderFree(f1: seq<FormField>, f2: seq<FormField>)
    requires forall k :: LastText(f1, k) == LastText(f2, k)
    ensures CanonicalString(f1) == CanonicalString(f2)
  {
    CanonicalListsLastValues(f1);
    CanonicalListsLastValues(f2);
    var s1 := SortByKey(Params(f1));
    var s2 := SortByKey(Params(f2));
    forall x ensures x in s1 <==> x in s2 {
      assert x == (x.0, x.1);
    }
    SortedUnique(s1, s2);
  }

  /** At upload time the form holds only the file when the signature is computed, so the
      digest covers the API secret alone. */
  lemma UploadSignatureCoversSecretOnly(fileName: string, secret: string, encode: string -> seq<byte>, sha1: seq<byte> -> seq<byte>)
    ensures Signature([FormField("file", Blob(fileName))], secret, encode, sha1) == Hex(sha1(encode(secret)))
  {
    var fields := [FormField("file", Blob(fileName))];
    assert fields[..0] == [];
    assert Params(fields) == [];
    assert CanonicalString(fields) == "";
    assert CanonicalString(fields) + secret == secret;
  }

  /** At deletion time the form holds the public id when the signature is computed. */
  lemma DeleteSignatureCoversPublicId(publicId: string, secret: string, encode: string -> seq<byte>, sha1: seq<byte> -> seq<byte>)
    ensures Signature([FormField("public_id", Text(publicId))], secret, encode, sha1)
            == Hex(sha1(encode("public_id=" + publicId + secret)))
  {
    var fields := [FormField("public_id", Text(publicId))];
    assert fields[..0] == [];
    assert Params(fields) == [("public_id", publicId)];
    assert SortByKey([("public_id", publicId)]) == [("public_id", publicId)];
    assert CanonicalString(fields) == "public_id=" + publicId;
  }

  /** `resourceType` of an upload (by MIME type) and of a deletion (by public id). */
  function UploadResourceType(mimeType: string): (r: string)
    ensures r == "video" <==> IsVideoType(mimeType)
    ensures r == "image" <==> !IsVideoType(mimeType)
  {
    if IsVideoType(mimeType) then "video" else "image"
  }

  function DeleteResourceType(publicId: string): (r: string)
    ensures r == "video" <==> StartsWith(publicId, "video/")
    ensures r == "image" <==> !StartsWith(publicId, "video/")
  {
    if StartsWith(publicId, "video/") then "video" else "image"
  }

  /** `IUploadOptions`. */
  datatype UploadOptions = UploadOptions(transformation: Option<string>, folder: Option<string>, tags: Option<seq<string>>)

  /** The POST a request makes, before the request hook adds the timestamp and API key. */
  datatype Request = Request(endpoint: string, fields: seq<FormField>)

  /** `upload_preset` when a preset is set, otherwise the signature of the form so far. */
  function Authorise(fields: seq<FormField>, s: CloudinarySettings, encode: string -> seq<byte>, sha1: seq<byte> -> seq<byte>)
    : seq<FormField>
  {
    if Truthy(s.uploadPreset) then fields + [FormField("upload_preset", Text(s.uploadPreset.value))]
    else fields + [FormField("signature", Text(Signature(fields, s.apiSecret, encode, sha1)))]
  }

  function OptionalField(key: string, value: Option<string>): seq<FormField>
  {
    if Truthy(value) then [FormField(key, Text(value.value))] else []
  }

  /** `tags` joined by `,`, whenever a tag list is given (an empty array is truthy). */
  function TagsField(tags: Option<seq<string>>): seq<FormField>
  {
    if tags.Some? then [FormField("tags", Text(Join(tags.value, ',')))] else []
  }

  /** The form `upload` posts to `/{resourceType}/upload`. */
  function UploadRequest(s: Option<CloudinarySettings>, mimeType: string, fileName: string, options: UploadOptions,
                         encode: string -> seq<byte>, sha1: seq<byte> -> seq<byte>): (r: Result<Request>)
    ensures r.Err? <==> !IsConfigured(s)
    ensures r.Ok? ==> r.value.endpoint == "/" + UploadResourceType(mimeType) + "/upload"
    ensures r.Ok? ==> |r.value.fields| >= 2 && r.value.fields[0] == FormField("file", Blob(fileName))
    ensures r.Ok? && Truthy(s.value.uploadPreset) ==> r.value.fields[1] == FormField("upload_preset", Text(s.value.uploadPreset.value))
    ensures r.Ok? && !Truthy(s.value.uploadPreset) ==>
              r.value.fields[1] == FormField("signature", Text(Hex(sha1(encode(s.value.apiSecret)))))
    ensures r.Ok? ==> r.value.fields[2..] == OptionalField("transformation", options.transformation)
                                            + OptionalField("folder", options.folder) + TagsField(options.tags)
  {
    if !IsConfigured(s) then Err("Configuration Cloudinary manquante")
    else
      var auth := Authorise([FormField("file", Blob(fileName))], s.value, encode, sha1);
      UploadAuth(fileName, s.value, encode, sha1);
      var rest := OptionalField("transformation", options.transformation)
                  + OptionalField("folder", options.folder) + TagsField(options.tags);
      FormParts(auth, rest);
      Ok(Request("/" + UploadResourceType(mimeType) + "/upload", auth + rest))
  }

  /** The upload form's head: the file, then the preset or the signature of the secret. */
  lemma UploadAuth(fileName: string, s: CloudinarySettings, encode: string -> seq<byte>, sha1: seq<byte> -> seq<byte>)
    ensures var auth := Authorise([FormField("file", Blob(fileName))], s, encode, sha1);
            && |auth| == 2 && auth[0] == FormField("file", Blob(fileName))
            && (Truthy(s.uploadPreset) ==> auth[1] == FormField("upload_preset", Text(s.uploadPreset.value)))
            && (!Truthy(s.uploadPreset) ==> auth[1] == FormField("signature", Text(Hex(sha1(encode(s.apiSecret))))))
  {
    UploadSignatureCoversSecretOnly(fileName, s.apiSecret, encode, sha1);
  }

  /** A form made of an authorised head of two fields and the optional fields after it. */
  lemma FormParts(auth: seq<FormField>, rest: seq<FormField>)
    requires |auth| == 2
    ensures |auth + rest| >= 2 && (auth + rest)[0] == auth[0] && (auth + rest)[1] == auth[1]
    ensures (auth + rest)[2..] == rest
  {
  }

  /** The form `delete` posts to `/{resourceType}/destroy`. */
  function DeleteRequest(s: Option<CloudinarySettings>, publicId: string,
                         encode: string -> seq<byte>, sha1: seq<byte> -> seq<byte>): (r: Result<Request>)
    ensures r.Err? <==> !IsConfigured(s)
    ensures r.Ok? ==> r.value.endpoint == "/" + DeleteResourceType(publicId) + "/destroy"
    ensures r.Ok? ==> |r.value.fields| == 2 && r.value.fields[0] == FormField("public_id", Text(publicId))
    ensures r.Ok? && Truthy(s.value.uploadPreset) ==> r.value.fields[1] == FormField("upload_preset", Text(s.value.uploadPreset.value))
    ensures r.Ok? && !Truthy(s.value.uploadPreset) ==>
              r.value.fields[1] == FormField("signature", Text(Hex(sha1(encode("public_id=" + publicId + s.value.apiSecret)))))
  {
    if !IsConfigured(s) then Err("Configuration Cloudinary manquante")
    else
      DeleteSignatureCoversPublicId(publicId, s.value.apiSecret, encode, sha1);
      Ok(Request("/" + DeleteResourceType(publicId) + "/destroy",
                 Authorise([FormField("public_id", Text(publicId))], s.value, encode, sha1)))
  }

  /** `CloudinaryService`: its settings are replaced by every settings event, even one
      without a Cloudinary sub-record. */
  class CloudinaryService {
    var settings: Option<CloudinarySettings>

    constructor(current: Option<CloudinarySettings>)
      ensures settings == current
    {
      settings := current;
    }

    method HandleSettingsUpdate(cloudinary: Option<CloudinarySettings>)
      modifies this
      ensures settings == cloudinary
    {
      settings := cloudinary;
    }
  }
}
