/** Loading the route list (`main`): every line of `routes.txt` is
    stripped, blank lines are dropped, the order of the file is kept, and the
    run stops when no route is left or when a route is listed twice. */
module Routes {
  import opened Text
  import opened Wrappers

  /** Why a route list is refused; each is a RuntimeError in the generator. */
  datatype RouteError = NoRoutes | DuplicateRoutes

  /** `[ln.strip() for ln in lines if ln.strip()]`. */
  function StrippedNonBlank(lines: seq<string>): (routes: seq<string>)
    ensures |routes| <= |lines|
    ensures forall i | 0 <= i < |routes| :: routes[i] != [] && Trimmed(routes[i])
  {
    if lines == [] then []
    else
      var r := Strip(lines[0]);
      StripIdempotent(lines[0]);
      if r != [] then [r] + StrippedNonBlank(lines[1..]) else StrippedNonBlank(lines[1..])
  }

  /** The distinct values of a list, `set(routes)`. */
  function Elements(s: seq<string>): set<string>
  {
    set x | x in s
  }

  /** No value is listed twice. */
  predicate Distinct(s: seq<string>)
  {
    forall i, j | 0 <= i < j < |s| :: s[i] != s[j]
  }

  /** The route-list check of `main`: `RuntimeError` when no route is left
      or when `len(routes) != len(set(routes))`. */
  function LoadRoutes(lines: seq<string>): Result<seq<string>, RouteError>
  {
    var routes := StrippedNonBlank(lines);
    if routes == [] then Failure(NoRoutes)
    else if |routes| != |Elements(routes)| then Failure(DuplicateRoutes)
    else Success(routes)
  }

  lemma ElementsCons(s: seq<string>)
    requires s != []
    ensures Elements(s) == {s[0]} + Elements(s[1..])
  {
    forall x | x in Elements(s)
      ensures x in {s[0]} + Elements(s[1..])
    {
      var i :| 0 <= i < |s| && s[i] == x;
      if i > 0 {
        assert s[1..][i - 1] == x;
      }
    }
  }

  /** A list has at most as many distinct values as entries. */
  lemma {:induction false} ElementsBound(s: seq<string>)
    ensures |Elements(s)| <= |s|
  {
    if s != [] {
      ElementsCons(s);
      ElementsBound(s[1..]);
    }
  }

  lemma DistinctCons(s: seq<string>)
    requires s != []
    ensures Distinct(s) <==> Distinct(s[1..]) && s[0] !in s[1..]
  {
    if Distinct(s[1..]) && s[0] !in s[1..] {
      forall i, j | 0 <= i < j < |s|
        ensures s[i] != s[j]
      {
        assert s[j] == s[1..][j - 1];
        if i > 0 {
          assert s[i] == s[1..][i - 1];
        }
      }
    }
    if Distinct(s) {
      forall i, j | 0 <= i < j < |s| - 1
        ensures s[1..][i] != s[1..][j]
      {
        assert s[1..][i] == s[i + 1] && s[1..][j] == s[j + 1];
      }
      forall j | 0 <= j < |s| - 1
        ensures s[1..][j] != s[0]
      {
        assert s[1..][j] == s[j + 1];
      }
    }
  }

  /** The size comparison of `main` finds exactly the lists that repeat a value. */
  lemma {:induction false} DistinctIffNoSizeLoss(s: seq<string>)
    ensures |Elements(s)| == |s| <==> Distinct(s)
  {
    if s != [] {
      ElementsCons(s);
      DistinctCons(s);
      DistinctIffNoSizeLoss(s[1..]);
      ElementsBound(s[1..]);
      if s[0] in s[1..] {
        assert s[0] in Elements(s[1..]);
        assert Elements(s) == Elements(s[1..]);
      } else {
        assert s[0] !in Elements(s[1..]);
        assert |Elements(s)| == |Elements(s[1..])| + 1;
      }
    }
  }

  /** Stripping lines file by file keeps the order of the file: the routes of
      two pieces of a file are the routes of the first, then of the second. */
  lemma {:induction false} StrippedNonBlankAppend(a: seq<string>, b: seq<string>)
    ensures StrippedNonBlank(a + b) == StrippedNonBlank(a) + StrippedNonBlank(b)
  {
    if a == [] {
      assert a + b == b;
    } else {
      assert (a + b)[0] == a[0];
      assert (a + b)[1..] == a[1..] + b;
      StrippedNonBlankAppend(a[1..], b);
    }
  }

  /** A single line contributes its stripped text, or nothing when it is blank. */
  lemma OneLine(line: string)
    ensures AllSpace(line) ==> StrippedNonBlank([line]) == []
    ensures !AllSpace(line) ==> StrippedNonBlank([line]) == [Strip(line)]
  {
    StripEmptyIffBlank(line);
    assert [line][1..] == [];
  }

  /** A route is listed exactly when some line strips to it and it is not empty. */
  lemma {:induction false} RouteFromLine(lines: seq<string>, r: string)
    ensures r in StrippedNonBlank(lines) <==> r != [] && exists i | 0 <= i < |lines| :: Strip(lines[i]) == r
  {
    if lines != [] {
      RouteFromLine(lines[1..], r);
      if exists i | 0 <= i < |lines| :: Strip(lines[i]) == r {
        var i :| 0 <= i < |lines| && Strip(lines[i]) == r;
        if i > 0 {
          assert Strip(lines[1..][i - 1]) == r;
        }
      }
      if exists i | 0 <= i < |lines| - 1 :: Strip(lines[1..][i]) == r {
        var i :| 0 <= i < |lines| - 1 && Strip(lines[1..][i]) == r;
        assert Strip(lines[i + 1]) == r;
      }
    }
  }

  /** The list is refused as empty exactly when every line is blank. */
  lemma {:induction false} NoRoutesIffAllBlank(lines: seq<string>)
    ensures StrippedNonBlank(lines) == [] <==> forall i | 0 <= i < |lines| :: AllSpace(lines[i])
  {
    if lines != [] {
      NoRoutesIffAllBlank(lines[1..]);
      StripEmptyIffBlank(lines[0]);
      if forall i | 0 <= i < |lines| - 1 :: AllSpace(lines[1..][i]) {
        if AllSpace(lines[0]) {
          forall i | 0 <= i < |lines|
            ensures AllSpace(lines[i])
          {
            if i > 0 {
              assert lines[i] == lines[1..][i - 1];
            }
          }
        }
      }
      if forall i | 0 <= i < |lines| :: AllSpace(lines[i]) {
        forall i | 0 <= i < |lines| - 1
          ensures AllSpace(lines[1..][i])
        {
          assert lines[1..][i] == lines[i + 1];
        }
      }
    }
  }

  /** What `main` goes on with: the stripped non-blank lines in file order,
      when there is at least one and no two are alike; otherwise the reason
      it stops. */
  lemma LoadRoutesOutcome(lines: seq<string>)
    ensures var routes := StrippedNonBlank(lines);
      && (LoadRoutes(lines) == Failure(NoRoutes) <==> forall i | 0 <= i < |lines| :: AllSpace(lines[i]))
      && (LoadRoutes(lines) == Failure(DuplicateRoutes) <==> routes != [] && !Distinct(routes))
      && (LoadRoutes(lines) == Success(routes) <==> routes != [] && Distinct(routes))
  {
    NoRoutesIffAllBlank(lines);
    DistinctIffNoSizeLoss(StrippedNonBlank(lines));
  }

  /** An accepted route list names distinct, non-blank routes with no
      whitespace at either end. */
  lemma AcceptedRoutes(lines: seq<string>)
    requires LoadRoutes(lines).Success?
    ensures var routes := LoadRoutes(lines).value;
      && routes != []
      && Distinct(routes)
      && forall i | 0 <= i < |routes| :: routes[i] != [] && Trimmed(routes[i])
  {
    DistinctIffNoSizeLoss(StrippedNonBlank(lines));
  }
}
