/** The naming helpers of the generator: the file-system-safe page name of a
    route (`safe_name`) and the live-status URL of a route in one direction
    (`url_for`). */
module Names {
  import opened Text
  import Url

  /** A character the pattern `[A-Za-z0-9._-]` matches. */
  predicate IsSafeChar(c: char)
  {
    ('A' <= c <= 'Z') || ('a' <= c <= 'z') || ('0' <= c <= '9') || c == '.' || c == '_' || c == '-'
  }

  predicate AllSafe(s: string)
  {
    forall i | 0 <= i < |s| :: IsSafeChar(s[i])
  }

  predicate NoneSafe(s: string)
  {
    forall i | 0 <= i < |s| :: !IsSafeChar(s[i])
  }

  /** The first index at or after `i` holding a safe character, or `|s|`. */
  function UnsafeRunEnd(s: string, i: int): (k: int)
    requires 0 <= i <= |s|
    ensures i <= k <= |s|
    ensures forall m | i <= m < k :: !IsSafeChar(s[m])
    ensures k == |s| || IsSafeChar(s[k])
    decreases |s| - i
  {
    if i < |s| && !IsSafeChar(s[i]) then UnsafeRunEnd(s, i + 1) else i
  }

  lemma {:induction false} UnsafeRunEndAt(s: string, i: int, k: int)
    requires 0 <= i <= k <= |s|
    requires forall m | i <= m < k :: !IsSafeChar(s[m])
    requires k == |s| || IsSafeChar(s[k])
    ensures UnsafeRunEnd(s, i) == k
    decreases k - i
  {
    if i < k {
      UnsafeRunEndAt(s, i + 1, k);
    }
  }

  /** Drops the run of unsafe characters at the front of `s`. */
  function SkipUnsafe(s: string): (r: string)
    ensures |r| <= |s| && r == s[|s| - |r|..]
    ensures forall m | 0 <= m < |s| - |r| :: !IsSafeChar(s[m])
    ensures r == [] || IsSafeChar(r[0])
    ensures s != [] && IsSafeChar(s[|s| - 1]) ==> r != [] && r[|r| - 1] == s[|s| - 1]
  {
    s[UnsafeRunEnd(s, 0)..]
  }

  /** `re.sub(r"[^A-Za-z0-9._-]+", "_", s)`: the regular expression's leftmost
      greedy match replaces each maximal run of unsafe characters by one `_`. */
  function SafeName(s: string): (r: string)
    ensures AllSafe(r)
    ensures |r| <= |s|
    ensures r == [] <==> s == []
  {
    if s == [] then []
    else if IsSafeChar(s[0]) then [s[0]] + SafeName(s[1..])
    else "_" + SafeName(SkipUnsafe(s[1..]))
  }

  /** A name made only of safe characters is left alone. */
  lemma {:induction false} SafeNameKeepsSafe(s: string)
    requires AllSafe(s)
    ensures SafeName(s) == s
  {
    if s != [] {
      SafeNameKeepsSafe(s[1..]);
    }
  }

  /** The fixed points of `SafeName` are exactly the safe names. */
  lemma SafeNameFixedPoints(s: string)
    ensures SafeName(s) == s <==> AllSafe(s)
  {
    if AllSafe(s) {
      SafeNameKeepsSafe(s);
    }
  }

  lemma SafeNameIdempotent(s: string)
    ensures SafeName(SafeName(s)) == SafeName(s)
  {
    SafeNameKeepsSafe(SafeName(s));
  }

  lemma SkipUnsafeOverRun(run: string, b: string)
    requires NoneSafe(run)
    requires b == [] || IsSafeChar(b[0])
    ensures SkipUnsafe(run + b) == b
  {
    UnsafeRunEndAt(run + b, 0, |run|);
  }

  lemma SkipUnsafeOverPrefix(a: string, b: string)
    requires a != [] && IsSafeChar(a[|a| - 1])
    ensures SkipUnsafe(a + b) == SkipUnsafe(a) + b
  {
    var k := UnsafeRunEnd(a, 0);
    UnsafeRunEndAt(a + b, 0, k);
    assert (a + b)[k..] == a[k..] + b;
  }

  /** Text ending in a safe character is renamed independently of what follows. */
  lemma {:induction false} SafeNameSplitsAfterSafe(a: string, b: string)
    requires a == [] || IsSafeChar(a[|a| - 1])
    ensures SafeName(a + b) == SafeName(a) + SafeName(b)
    decreases |a|
  {
    if a == [] {
      assert a + b == b;
    } else if IsSafeChar(a[0]) {
      Url.SliceAppend(a, b, 1);
      assert SafeName(a + b) == [a[0]] + SafeName(a[1..] + b);
      SafeNameSplitsAfterSafe(a[1..], b);
      Url.Assoc([a[0]], SafeName(a[1..]), SafeName(b));
    } else {
      Url.SliceAppend(a, b, 1);
      SkipUnsafeOverPrefix(a[1..], b);
      var t := SkipUnsafe(a[1..]);
      assert SafeName(a + b) == "_" + SafeName(t + b);
      SafeNameSplitsAfterSafe(t, b);
      Url.Assoc("_", SafeName(t), SafeName(b));
    }
  }

  /** A maximal run of unsafe characters becomes exactly one `_`, and the text
      on either side is renamed on its own. */
  lemma RunBecomesOneUnderscore(a: string, run: string, b: string)
    requires a == [] || IsSafeChar(a[|a| - 1])
    requires run != [] && NoneSafe(run)
    requires b == [] || IsSafeChar(b[0])
    ensures SafeName(a + (run + b)) == SafeName(a) + ("_" + SafeName(b))
  {
    SafeNameSplitsAfterSafe(a, run + b);
    LeadingRunBecomesUnderscore(run, b);
  }

  lemma LeadingRunBecomesUnderscore(run: string, b: string)
    requires run != [] && NoneSafe(run)
    requires b == [] || IsSafeChar(b[0])
    ensures SafeName(run + b) == "_" + SafeName(b)
  {
    var t := run + b;
    assert t[0] == run[0];
    assert t[1..] == run[1..] + b;
    SkipUnsafeOverRun(run[1..], b);
  }

  /** A safe character is copied unchanged. */
  lemma SafeCharKept(a: string, c: char, b: string)
    requires a == [] || IsSafeChar(a[|a| - 1])
    requires IsSafeChar(c)
    ensures SafeName(a + ([c] + b)) == SafeName(a) + ([c] + SafeName(b))
  {
    var t := [c] + b;
    SafeNameSplitsAfterSafe(a, t);
    assert t[0] == c && t[1..] == b;
  }

  const StatusBase: string := "https://tfl.gov.uk/bus/status/"

  datatype Direction = Inbound | Outbound
  {
    /** The `direction` query value. */
    function Name(): string
    {
      match this
      case Inbound => "inbound"
      case Outbound => "outbound"
    }
  }

  /** `url_for(route, direction)`: the live-status page of the stripped route,
      which is passed both as the search input and as the line id. */
  function UrlFor(route: string, direction: string): (u: string)
  {
    var r := Strip(route);
    StatusBase + "?input=" + r + "&lineIds=" + r + "&direction=" + direction
  }

  /** Read back, the URL of `url_for` is the status page asked for the
      stripped route as both input and line id, in the given direction. */
  lemma UrlForParams(route: string, direction: string)
    requires Url.PlainValue(Strip(route)) && Url.PlainValue(direction)
    ensures Url.Path(UrlFor(route, direction)) == StatusBase
    ensures Url.Params(UrlFor(route, direction))
            == [("input", Strip(route)), ("lineIds", Strip(route)), ("direction", direction)]
    ensures '?' in UrlFor(route, direction) && '#' !in UrlFor(route, direction)
  {
    StatusQuery(Strip(route), direction);
  }

  lemma StatusQuery(r: string, d: string)
    requires Url.PlainValue(r) && Url.PlainValue(d)
    ensures var u := StatusBase + "?input=" + r + "&lineIds=" + r + "&direction=" + d;
      && Url.Path(u) == StatusBase
      && Url.Params(u) == [("input", r), ("lineIds", r), ("direction", d)]
      && '?' in u && '#' !in u
  {
    StatusBaseHasNoQuery();
    StatusKeys();
    Url.ThreeParams(StatusBase, "input", r, "lineIds", r, "direction", d);
    Url.ThreeParamsKeepQuery(StatusBase, "input", r, "lineIds", r, "direction", d);
    StatusUrlShape(r, d);
  }

  lemma StatusBaseHasNoQuery()
    ensures '?' !in StatusBase && '#' !in StatusBase
  {
  }

  lemma StatusKeys()
    ensures Url.PlainKey("input") && Url.PlainKey("lineIds") && Url.PlainKey("direction")
  {
  }

  lemma StatusUrlShape(r: string, d: string)
    ensures StatusBase + "?input=" + r + "&lineIds=" + r + "&direction=" + d
         == StatusBase + "?" + "input" + "=" + r + "&" + "lineIds" + "=" + r + "&" + "direction" + "=" + d
  {
  }
}
