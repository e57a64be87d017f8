/** Python's `str.strip()` with no argument: removes leading and trailing
    characters for which `str.isspace()` holds. Like CPython, it scans forward
    for the first non-whitespace character, then backward from the end, never
    past that first one. */
module Text {

  /** `str.isspace()` for one character: the C0 separators and controls
      U+0009..U+000D and U+001C..U+001F, the space, NEL, NBSP and the Unicode
      space separators, line and paragraph separators. */
  predicate IsSpace(c: char)
  {
    ('\t' <= c <= '\r') || ('\U{1C}' <= c <= '\U{1F}') || c == ' '
    || c == '\U{85}' || c == '\U{A0}' || c == '\U{1680}'
    || ('\U{2000}' <= c <= '\U{200A}') || c == '\U{2028}' || c == '\U{2029}'
    || c == '\U{202F}' || c == '\U{205F}' || c == '\U{3000}'
  }

  predicate AllSpace(s: string)
  {
    forall i | 0 <= i < |s| :: IsSpace(s[i])
  }

  /** Neither starts nor ends with whitespace. */
  predicate Trimmed(s: string)
  {
    s == [] || (!IsSpace(s[0]) && !IsSpace(s[|s| - 1]))
  }

  /** The first index at or after `i` that holds no whitespace, or `|s|`. */
  function SkipSpace(s: string, i: int): (k: int)
    requires 0 <= i <= |s|
    ensures i <= k <= |s|
    ensures forall m | i <= m < k :: IsSpace(s[m])
    ensures k == |s| || !IsSpace(s[k])
    decreases |s| - i
  {
    if i < |s| && IsSpace(s[i]) then SkipSpace(s, i + 1) else i
  }

  /** Scanning back from `j`, but not below `lo`: the end of the last
      character that is not whitespace, or `lo`. */
  function TrimEnd(s: string, lo: int, j: int): (k: int)
    requires 0 <= lo <= j <= |s|
    ensures lo <= k <= j
    ensures forall m | k <= m < j :: IsSpace(s[m])
    ensures k == lo || !IsSpace(s[k - 1])
    decreases j
  {
    if j > lo && IsSpace(s[j - 1]) then TrimEnd(s, lo, j - 1) else j
  }

  /** `s.strip()`. */
  function Strip(s: string): string
  {
    var i := SkipSpace(s, 0);
    s[i..TrimEnd(s, i, |s|)]
  }

  /** `s[i..j]` is what remains once only whitespace is cut from both ends
      and none is left at the ends: the result `s.strip()` must have. */
  predicate IsStripOf(s: string, i: int, j: int)
  {
    && 0 <= i <= j <= |s|
    && (forall m | 0 <= m < i :: IsSpace(s[m]))
    && (forall m | j <= m < |s| :: IsSpace(s[m]))
    && (i == j || (!IsSpace(s[i]) && !IsSpace(s[j - 1])))
  }

  /** The slice that `Strip` keeps has that shape. */
  lemma StripIsSlice(s: string)
    ensures exists i, j :: IsStripOf(s, i, j) && Strip(s) == s[i..j]
  {
    var i := SkipSpace(s, 0);
    var j := TrimEnd(s, i, |s|);
    assert IsStripOf(s, i, j);
  }

  lemma {:induction false} SkipSpaceAt(s: string, lo: int, i: int)
    requires 0 <= lo <= i <= |s|
    requires forall m | lo <= m < i :: IsSpace(s[m])
    requires i == |s| || !IsSpace(s[i])
    ensures SkipSpace(s, lo) == i
    decreases i - lo
  {
    if lo < i {
      SkipSpaceAt(s, lo + 1, i);
    }
  }

  lemma {:induction false} TrimEndAt(s: string, lo: int, j: int, k: int)
    requires 0 <= lo <= k <= j <= |s|
    requires forall m | k <= m < j :: IsSpace(s[m])
    requires k == lo || !IsSpace(s[k - 1])
    ensures TrimEnd(s, lo, j) == k
    decreases j - k
  {
    if k < j {
      TrimEndAt(s, lo, j - 1, k);
    }
  }

  /** Any way of cutting only whitespace from both ends that leaves no
      whitespace at the ends gives exactly `Strip(s)`. */
  lemma StripUnique(s: string, i: int, j: int)
    requires IsStripOf(s, i, j)
    ensures Strip(s) == s[i..j]
  {
    if i == j {
      SkipSpaceAt(s, 0, |s|);
    } else {
      SkipSpaceAt(s, 0, i);
      TrimEndAt(s, i, |s|, j);
    }
  }

  /** Stripping leaves no whitespace at either end, so a second strip changes nothing. */
  lemma StripIdempotent(s: string)
    ensures Trimmed(Strip(s))
    ensures Strip(Strip(s)) == Strip(s)
  {
    var i := SkipSpace(s, 0);
    var j := TrimEnd(s, i, |s|);
    var r := s[i..j];
    assert IsStripOf(r, 0, |r|) by {
      if r != [] {
        assert r[0] == s[i] && r[|r| - 1] == s[j - 1];
      }
    }
    StripUnique(r, 0, |r|);
  }

  /** `s.strip()` is empty exactly for blank strings. */
  lemma StripEmptyIffBlank(s: string)
    ensures Strip(s) == [] <==> AllSpace(s)
  {
    var i := SkipSpace(s, 0);
    var j := TrimEnd(s, i, |s|);
    if AllSpace(s) {
      SkipSpaceAt(s, 0, |s|);
    }
  }
}
