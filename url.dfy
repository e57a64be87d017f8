/** A reader for the URLs the generator writes: the query parameters after
    the first `?` (up to a `#`), split on `&` and then at the first `=`, and
    percent-decoding of a value (section 2.1 of RFC 3986). It is the reference
    against which the generated URLs are read back. */
module Url {

  /** Position of the first `c` in `s`, or `|s|` when there is none. */
  function IndexOf(s: string, c: char): (i: nat)
    ensures i <= |s|
    ensures forall m | 0 <= m < i :: s[m] != c
    ensures i < |s| ==> s[i] == c
  {
    IndexFrom(s, c, 0)
  }

  /** Position of the first `c` in `s` at or after `j`, or `|s|`. */
  function IndexFrom(s: string, c: char, j: nat): (i: nat)
    requires j <= |s|
    ensures j <= i <= |s|
    ensures forall m | j <= m < i :: s[m] != c
    ensures i < |s| ==> s[i] == c
    decreases |s| - j
  {
    if j == |s| || s[j] == c then j else IndexFrom(s, c, j + 1)
  }

  lemma {:induction false} IndexFromAt(s: string, c: char, j: nat, i: nat)
    requires j <= i <= |s|
    requires forall m | j <= m < i :: s[m] != c
    requires i == |s| || s[i] == c
    ensures IndexFrom(s, c, j) == i
    decreases i - j
  {
    if j < i {
      IndexFromAt(s, c, j + 1, i);
    }
  }

  /** The two properties of `IndexOf` determine it. */
  lemma IndexOfAt(s: string, c: char, i: nat)
    requires i <= |s|
    requires forall m | 0 <= m < i :: s[m] != c
    requires i == |s| || s[i] == c
    ensures IndexOf(s, c) == i
  {
    IndexFromAt(s, c, 0, i);
  }

  lemma Assoc<T>(a: seq<T>, b: seq<T>, c: seq<T>)
    ensures a + b + c == a + (b + c)
  {
  }

  lemma Assoc4<T>(a: seq<T>, b: seq<T>, c: seq<T>, d: seq<T>)
    ensures a + b + c + d == a + (b + c + d)
  {
  }

  lemma SliceAppend<T>(a: seq<T>, b: seq<T>, n: int)
    requires 0 <= n <= |a|
    ensures (a + b)[..n] == a[..n]
    ensures (a + b)[n..] == a[n..] + b
  {
  }

  /** The pieces of `a`, a separator `x`, then `b`. */
  lemma AroundSeparator<T>(a: seq<T>, x: T, b: seq<T>)
    ensures var t := a + ([x] + b);
      && |t| == |a| + 1 + |b| && t[|a|] == x
      && t[..|a|] == a && t[|a| + 1..] == b
  {
    var t := a + ([x] + b);
    assert t[|a| + 1..] == b;
  }

  /** `s.split(sep)`. */
  function Split(s: string, sep: char): (parts: seq<string>)
    ensures |parts| >= 1
    decreases |s|
  {
    var i := IndexOf(s, sep);
    if i == |s| then [s] else [s[..i]] + Split(s[i + 1..], sep)
  }

  /** A `key=value` field, split at its first `=`. */
  function Field(f: string): (string, string)
  {
    var i := IndexOf(f, '=');
    if i == |f| then (f, "") else (f[..i], f[i + 1..])
  }

  function Fields(parts: seq<string>): seq<(string, string)>
  {
    if parts == [] then [] else [Field(parts[0])] + Fields(parts[1..])
  }

  /** The query of `url`: after its first `?` and before the next `#`. */
  function Query(url: string): string
  {
    var q := IndexOf(url, '?');
    if q == |url| then ""
    else
      var rest := url[q + 1..];
      rest[..IndexOf(rest, '#')]
  }

  /** The text before the query. */
  function Path(url: string): string
  {
    url[..IndexOf(url, '?')]
  }

  function Params(url: string): seq<(string, string)>
  {
    Fields(Split(Query(url), '&'))
  }

  /** May stand as a parameter value (or key) without ending it early. */
  predicate PlainValue(v: string)
  {
    '&' !in v && '#' !in v
  }

  lemma PlainAppend(a: string, b: string)
    requires PlainValue(a) && PlainValue(b)
    ensures PlainValue(a + b)
  {
  }

  lemma {:induction false} SplitAppend(s: string, f: string, sep: char)
    requires sep !in f
    ensures Split(s + ([sep] + f), sep) == Split(s, sep) + [f]
    decreases |s|
  {
    var t := s + ([sep] + f);
    var i := IndexOf(s, sep);
    if i == |s| {
      AroundSeparator(s, sep, f);
      IndexOfAt(t, sep, |s|);
      SplitSingle(f, sep);
      assert Split(t, sep) == [s] + Split(f, sep);
    } else {
      SliceAppend(s, [sep] + f, i);
      SliceAppend(s, [sep] + f, i + 1);
      IndexOfAt(t, sep, i);
      assert Split(t, sep) == [s[..i]] + Split(s[i + 1..] + ([sep] + f), sep);
      SplitAppend(s[i + 1..], f, sep);
      Assoc([s[..i]], Split(s[i + 1..], sep), [f]);
    }
  }

  lemma SplitSingle(f: string, sep: char)
    requires sep !in f
    ensures Split(f, sep) == [f]
  {
    IndexOfAt(f, sep, |f|);
  }

  lemma {:induction false} FieldsAppend(parts: seq<string>, f: string)
    ensures Fields(parts + [f]) == Fields(parts) + [Field(f)]
    decreases |parts|
  {
    if parts != [] {
      assert (parts + [f])[1..] == parts[1..] + [f];
      FieldsAppend(parts[1..], f);
    } else {
      assert parts + [f] == [f];
    }
  }

  lemma FieldOf(k: string, v: string)
    requires '=' !in k
    ensures Field(k + "=" + v) == (k, v)
  {
    Assoc(k, "=", v);
    AroundSeparator(k, '=', v);
    IndexOfAt(k + ("=" + v), '=', |k|);
  }

  lemma QueryAppend(url: string, tail: string)
    requires '?' in url && '#' !in url && '#' !in tail
    ensures Query(url + tail) == Query(url) + tail
    ensures Path(url + tail) == Path(url)
  {
    var q := IndexOf(url, '?');
    IndexOfAt(url + tail, '?', q);
    SliceAppend(url, tail, q);
    SliceAppend(url, tail, q + 1);
    var rest := url[q + 1..];
    IndexOfAt(rest, '#', |rest|);
    IndexOfAt(rest + tail, '#', |rest + tail|);
  }

  lemma QueryAfterPath(path: string, q: string)
    requires '?' !in path && '#' !in q
    ensures Path(path + "?" + q) == path
    ensures Query(path + "?" + q) == q
  {
    Assoc(path, "?", q);
    AroundSeparator(path, '?', q);
    IndexOfAt(path + ("?" + q), '?', |path|);
    IndexOfAt(q, '#', |q|);
  }

  predicate PlainKey(k: string)
  {
    PlainValue(k) && '=' !in k
  }

  /** Writing `?key=value` after a plain path gives a URL with that one parameter. */
  lemma FirstParam(path: string, k: string, v: string)
    requires '?' !in path
    requires PlainKey(k) && PlainValue(v)
    ensures Path(path + "?" + k + "=" + v) == path
    ensures Params(path + "?" + k + "=" + v) == [(k, v)]
  {
    var f := k + "=" + v;
    Assoc4(path + "?", k, "=", v);
    QueryAfterPath(path, f);
    SplitSingle(f, '&');
    FieldOf(k, v);
    assert Fields([f]) == [Field(f)] + Fields([]);
  }

  lemma FirstParamKeepsQuery(path: string, k: string, v: string)
    requires '#' !in path && PlainKey(k) && PlainValue(v)
    ensures '?' in path + "?" + k + "=" + v && '#' !in path + "?" + k + "=" + v
  {
    assert (path + "?" + k + "=" + v)[|path|] == '?';
  }

  /** Writing `&key=value` after a URL that already has a query appends that
      parameter and leaves the others as they were. */
  lemma NextParam(url: string, k: string, v: string)
    requires '?' in url && '#' !in url
    requires PlainKey(k) && PlainValue(v)
    ensures Path(url + "&" + k + "=" + v) == Path(url)
    ensures Params(url + "&" + k + "=" + v) == Params(url) + [(k, v)]
  {
    var f := k + "=" + v;
    Assoc4(url + "&", k, "=", v);
    Assoc(url, "&", f);
    QueryAppend(url, "&" + f);
    SplitAppend(Query(url), f, '&');
    FieldsAppend(Split(Query(url), '&'), f);
    FieldOf(k, v);
  }

  lemma NextParamKeepsQuery(url: string, k: string, v: string)
    requires '?' in url && '#' !in url && PlainKey(k) && PlainValue(v)
    ensures '?' in url + "&" + k + "=" + v && '#' !in url + "&" + k + "=" + v
  {
  }

  /** A plain path followed by three parameters reads back as those three. */
  lemma ThreeParams(path: string, k1: string, v1: string, k2: string, v2: string, k3: string, v3: string)
    requires '?' !in path && '#' !in path
    requires PlainKey(k1) && PlainKey(k2) && PlainKey(k3)
    requires PlainValue(v1) && PlainValue(v2) && PlainValue(v3)
    ensures var u := path + "?" + k1 + "=" + v1 + "&" + k2 + "=" + v2 + "&" + k3 + "=" + v3;
      && Path(u) == path
      && Params(u) == [(k1, v1), (k2, v2), (k3, v3)]
  {
    var u1 := path + "?" + k1 + "=" + v1;
    FirstParam(path, k1, v1);
    FirstParamKeepsQuery(path, k1, v1);
    var u2 := u1 + "&" + k2 + "=" + v2;
    NextParam(u1, k2, v2);
    NextParamKeepsQuery(u1, k2, v2);
    NextParam(u2, k3, v3);
    ThreeInARow((k1, v1), (k2, v2), (k3, v3));
  }

  lemma ThreeInARow<T>(a: T, b: T, c: T)
    ensures [a] + [b] + [c] == [a, b, c]
  {
  }

  lemma ThreeParamsKeepQuery(path: string, k1: string, v1: string, k2: string, v2: string, k3: string, v3: string)
    requires '#' !in path
    requires PlainKey(k1) && PlainKey(k2) && PlainKey(k3)
    requires PlainValue(v1) && PlainValue(v2) && PlainValue(v3)
    ensures var u := path + "?" + k1 + "=" + v1 + "&" + k2 + "=" + v2 + "&" + k3 + "=" + v3;
      '?' in u && '#' !in u
  {
    var u1 := path + "?" + k1 + "=" + v1;
    FirstParamKeepsQuery(path, k1, v1);
    var u2 := u1 + "&" + k2 + "=" + v2;
    NextParamKeepsQuery(u1, k2, v2);
    NextParamKeepsQuery(u2, k3, v3);
  }

  /** Three more parameters written after a URL with a query are appended to its parameters. */
  lemma AppendThreeParams(url: string, k1: string, v1: string, k2: string, v2: string, k3: string, v3: string)
    requires '?' in url && '#' !in url
    requires PlainKey(k1) && PlainKey(k2) && PlainKey(k3)
    requires PlainValue(v1) && PlainValue(v2) && PlainValue(v3)
    ensures var u := url + "&" + k1 + "=" + v1 + "&" + k2 + "=" + v2 + "&" + k3 + "=" + v3;
      && Path(u) == Path(url)
      && Params(u) == Params(url) + [(k1, v1), (k2, v2), (k3, v3)]
  {
    var u1 := url + "&" + k1 + "=" + v1;
    NextParam(url, k1, v1);
    NextParamKeepsQuery(url, k1, v1);
    var u2 := u1 + "&" + k2 + "=" + v2;
    NextParam(u1, k2, v2);
    NextParamKeepsQuery(u1, k2, v2);
    NextParam(u2, k3, v3);
    AppendThree(Params(url), (k1, v1), (k2, v2), (k3, v3));
  }

  /** `&key=` written after a URL and then a value is the parameter `key=value`. */
  lemma KeyJoin(url: string, k: string, v: string)
    ensures url + ("&" + k + "=") + v == url + "&" + k + "=" + v
  {
    Assoc(url, "&" + k, "=");
    Assoc(url, "&", k);
  }

  /** A whole `&key=value` written after a URL is that parameter. */
  lemma ParamJoin(url: string, k: string, v: string)
    ensures url + ("&" + k + "=" + v) == url + "&" + k + "=" + v
  {
    Assoc(url, "&" + k + "=", v);
    KeyJoin(url, k, v);
  }

  lemma AppendThree<T>(p: seq<T>, a: T, b: T, c: T)
    ensures p + [a] + [b] + [c] == p + [a, b, c]
  {
  }

  /** The value of one hexadecimal digit, or -1. */
  function HexValue(c: char): int
  {
    if '0' <= c <= '9' then c as int - '0' as int
    else if 'A' <= c <= 'F' then c as int - 'A' as int + 10
    else if 'a' <= c <= 'f' then c as int - 'a' as int + 10
    else -1
  }

  /** Percent-decoding: each `%HH` stands for the character with code `HH`
      (exact for the ASCII characters the generator encodes). */
  function PercentDecode(s: string): string
    decreases |s|
  {
    if |s| >= 3 && s[0] == '%' && HexValue(s[1]) >= 0 && HexValue(s[2]) >= 0 then
      [(16 * HexValue(s[1]) + HexValue(s[2])) as char] + PercentDecode(s[3..])
    else if s == [] then []
    else [s[0]] + PercentDecode(s[1..])
  }

  lemma {:induction false} DecodePlain(a: string, b: string)
    requires '%' !in a
    ensures PercentDecode(a + b) == a + PercentDecode(b)
    decreases |a|
  {
    if a == [] {
      assert a + b == b;
    } else {
      assert (a + b)[0] == a[0];
      assert (a + b)[1..] == a[1..] + b;
      DecodePlain(a[1..], b);
    }
  }

  lemma DecodeEscape(h1: char, h2: char, b: string)
    requires HexValue(h1) >= 0 && HexValue(h2) >= 0
    ensures PercentDecode(['%', h1, h2] + b) == [(16 * HexValue(h1) + HexValue(h2)) as char] + PercentDecode(b)
  {
    assert (['%', h1, h2] + b)[3..] == b;
  }

  lemma DecodeNoPercent(a: string)
    requires '%' !in a
    ensures PercentDecode(a) == a
  {
    DecodePlain(a, []);
    assert a + [] == a;
  }

  lemma DecodeColon(b: string)
    ensures PercentDecode("%3A" + b) == ":" + PercentDecode(b)
  {
    DecodeEscape('3', 'A', b);
  }

  lemma DecodeSpace(b: string)
    ensures PercentDecode("%20" + b) == " " + PercentDecode(b)
  {
    DecodeEscape('2', '0', b);
  }
}
