/**
 * The functions of Go's `strings` package that the core calls, on `seq<char>`.
 * A Go cutset (the second argument of TrimLeft, TrimRight and Trim) is a set of
 * characters, given as a string whose characters are the members.
 */
module GoStrings {

  /** strings.HasPrefix */
  predicate HasPrefix(s: string, prefix: string)
  {
    |prefix| <= |s| && s[..|prefix|] == prefix
  }

  /** strings.HasSuffix */
  predicate HasSuffix(s: string, suffix: string)
  {
    |suffix| <= |s| && s[|s| - |suffix|..] == suffix
  }

  /** strings.TrimPrefix: drops `prefix` once when `s` starts with it. */
  function TrimPrefix(s: string, prefix: string): (r: string)
    ensures HasPrefix(s, prefix) ==> prefix + r == s
    ensures !HasPrefix(s, prefix) ==> r == s
  {
    if HasPrefix(s, prefix) then
      assert s == s[..|prefix|] + s[|prefix|..];
      s[|prefix|..]
    else s
  }

  /** The last element of a non-empty sequence (Go's `xs[len(xs)-1]`). */
  function Last<T>(xs: seq<T>): T
    requires |xs| > 0
  {
    xs[|xs| - 1]
  }

  /**
   * strings.Split with a one-character separator: the pieces between
   * separators, so there is always at least one piece and no piece holds
   * the separator ("" splits into [""], "a/" into ["a", ""]).
   */
  function Split(s: string, sep: char): (r: seq<string>)
    ensures |r| >= 1
    ensures forall i :: 0 <= i < |r| ==> sep !in r[i]
    decreases |s|
  {
    if |s| == 0 then [""]
    else
      var rest := Split(s[1..], sep);
      if s[0] == sep then [""] + rest
      else [[s[0]] + rest[0]] + rest[1..]
  }

  /** strings.Join with a one-character separator. */
  function Join(xs: seq<string>, sep: char): string
    decreases |xs|
  {
    if |xs| == 0 then ""
    else if |xs| == 1 then xs[0]
    else xs[0] + [sep] + Join(xs[1..], sep)
  }

  /** How many characters at the front of `s` are in the cutset. */
  function LeadingCount(s: string, cutset: string): (n: nat)
    ensures n <= |s|
    ensures forall i :: 0 <= i < n ==> s[i] in cutset
    ensures n == |s| || s[n] !in cutset
    decreases |s|
  {
    if |s| > 0 && s[0] in cutset then 1 + LeadingCount(s[1..], cutset) else 0
  }

  /** How many characters at the end of `s` are in the cutset. */
  function TrailingCount(s: string, cutset: string): (n: nat)
    ensures n <= |s|
    ensures forall i :: |s| - n <= i < |s| ==> s[i] in cutset
    ensures n == |s| || s[|s| - n - 1] !in cutset
    decreases |s|
  {
    if |s| > 0 && s[|s| - 1] in cutset then 1 + TrailingCount(s[..|s| - 1], cutset) else 0
  }

  /** strings.TrimLeft: drops the longest prefix made of cutset characters. */
  function TrimLeft(s: string, cutset: string): (r: string)
    ensures |r| <= |s| && r == s[|s| - |r|..]
    ensures forall i :: 0 <= i < |s| - |r| ==> s[i] in cutset
    ensures r == [] || r[0] !in cutset
  {
    s[LeadingCount(s, cutset)..]
  }

  /** strings.TrimRight: drops the longest suffix made of cutset characters. */
  function TrimRight(s: string, cutset: string): (r: string)
    ensures |r| <= |s| && r == s[..|r|]
    ensures forall i :: |r| <= i < |s| ==> s[i] in cutset
    ensures r == [] || r[|r| - 1] !in cutset
  {
    s[..|s| - TrailingCount(s, cutset)]
  }

  /** strings.Trim: both ends. */
  function Trim(s: string, cutset: string): string
  {
    TrimRight(TrimLeft(s, cutset), cutset)
  }

  /** Trim leaves no cutset character at either end. */
  lemma {:induction false} TrimEnds(s: string, cutset: string)
    ensures var r := Trim(s, cutset); r == [] || (r[0] !in cutset && Last(r) !in cutset)
  {
    var left := TrimLeft(s, cutset);
    var r := TrimRight(left, cutset);
    assert r != [] ==> r[0] == left[0];
  }

  /** Splitting a string without the separator gives the string itself. */
  lemma {:induction false} SplitNoSep(s: string, sep: char)
    requires sep !in s
    ensures Split(s, sep) == [s]
    decreases |s|
  {
    if |s| > 0 {
      SplitNoSep(s[1..], sep);
      assert [s[0]] + s[1..] == s;
    }
  }

  /** A join of two or more pieces ends in the separator and the last piece. */
  lemma {:induction false} JoinLast(xs: seq<string>, sep: char)
    requires |xs| >= 2
    ensures Join(xs, sep) == Join(xs[..|xs| - 1], sep) + [sep] + Last(xs)
    decreases |xs|
  {
    if |xs| > 2 {
      JoinLast(xs[1..], sep);
      assert xs[1..][..|xs| - 2] == xs[..|xs| - 1][1..];
    }
  }

  /**
   * The last piece of a split is a suffix of the string: the whole string
   * when there is only one piece, and otherwise right after a separator.
   */
  lemma {:induction false} SplitLast(s: string, sep: char)
    ensures var l := Last(Split(s, sep));
      HasSuffix(s, l) && (l == s || s[|s| - |l| - 1] == sep)
  {
    var xs := Split(s, sep);
    JoinSplit(s, sep);
    if |xs| >= 2 {
      JoinLast(xs, sep);
      assert s[|s| - |Last(xs)|..] == Last(xs) && s[|s| - |Last(xs)| - 1] == sep;
    }
  }

  /** A separator between two strings splits exactly there. */
  lemma {:induction false} SplitAppend(a: string, b: string, sep: char)
    ensures Split(a + [sep] + b, sep) == Split(a, sep) + Split(b, sep)
    decreases |a|
  {
    var s := a + [sep] + b;
    if |a| == 0 {
      assert s[1..] == b;
    } else {
      assert s[0] == a[0] && s[1..] == a[1..] + [sep] + b;
      SplitAppend(a[1..], b, sep);
      var restA, restB := Split(a[1..], sep), Split(b, sep);
      if a[0] != sep {
        assert (restA + restB)[0] == restA[0];
        assert (restA + restB)[1..] == restA[1..] + restB;
      }
    }
  }

  /** Joining the pieces of a split gives the original string back. */
  lemma {:induction false} JoinSplit(s: string, sep: char)
    ensures Join(Split(s, sep), sep) == s
    decreases |s|
  {
    if |s| > 0 {
      var rest := Split(s[1..], sep);
      JoinSplit(s[1..], sep);
      if s[0] == sep {
        if |rest| == 1 {
          assert Join([""] + rest, sep) == "" + [sep] + rest[0];
        } else {
          assert ([""] + rest)[1..] == rest;
        }
        assert s == [sep] + s[1..];
      } else {
        var head := [[s[0]] + rest[0]];
        if |rest| == 1 {
          assert head + rest[1..] == head;
        } else {
          assert (head + rest[1..])[1..] == rest[1..];
          assert Join(rest, sep) == rest[0] + [sep] + Join(rest[1..], sep);
        }
        assert s == [s[0]] + s[1..];
      }
    }
  }

  /**
   * Splitting a join takes the joined pieces apart again; only the first
   * piece may itself contain the separator.
   */
  lemma {:induction false} SplitJoin(xs: seq<string>, sep: char)
    requires |xs| >= 1
    requires forall i :: 1 <= i < |xs| ==> sep !in xs[i]
    ensures Split(Join(xs, sep), sep) == Split(xs[0], sep) + xs[1..]
    decreases |xs|
  {
    if |xs| > 1 {
      SplitJoin(xs[1..], sep);
      SplitAppend(xs[0], Join(xs[1..], sep), sep);
      SplitNoSep(xs[1], sep);
      assert [xs[1]] + xs[1..][1..] == xs[1..];
    }
  }

  /** Appending a cutset character does not change what TrimRight keeps. */
  lemma {:induction false} TrimRightAppendCut(s: string, c: char, cutset: string)
    requires c in cutset
    ensures TrimRight(s + [c], cutset) == TrimRight(s, cutset)
  {
    assert (s + [c])[..|s|] == s;
    assert TrailingCount(s + [c], cutset) == 1 + TrailingCount(s, cutset);
  }

  /** Pieces without the separator are exactly what splitting their join gives. */
  lemma {:induction false} SplitJoinPieces(xs: seq<string>, sep: char)
    requires |xs| >= 1
    requires forall i :: 0 <= i < |xs| ==> sep !in xs[i]
    ensures Split(Join(xs, sep), sep) == xs
  {
    SplitJoin(xs, sep);
    SplitNoSep(xs[0], sep);
  }

  /** Every character of `s` is in the cutset. */
  predicate AllIn(s: string, cutset: string)
  {
    forall k :: 0 <= k < |s| ==> s[k] in cutset
  }

  /** What TrimLeft drops is a run of cutset characters in front of what it keeps. */
  lemma {:induction false} TrimLeftSplit(s: string, cutset: string)
    ensures var left := TrimLeft(s, cutset);
            AllIn(s[..|s| - |left|], cutset) && s == s[..|s| - |left|] + left
  {
    var left := TrimLeft(s, cutset);
    assert s == s[..|s| - |left|] + s[|s| - |left|..];
  }

  /** What TrimRight drops is a run of cutset characters after what it keeps. */
  lemma {:induction false} TrimRightSplit(s: string, cutset: string)
    ensures var right := TrimRight(s, cutset);
            AllIn(s[|right|..], cutset) && s == right + s[|right|..]
  {
    var right := TrimRight(s, cutset);
    assert s == s[..|right|] + s[|right|..];
  }

  /** The cutset characters Trim drops in front of its result. */
  function TrimmedBefore(s: string, cutset: string): string
  {
    s[..|s| - |TrimLeft(s, cutset)|]
  }

  /** The cutset characters Trim drops after its result. */
  function TrimmedAfter(s: string, cutset: string): string
  {
    TrimLeft(s, cutset)[|Trim(s, cutset)|..]
  }

  /**
   * Trim cuts `s` into three: a run of cutset characters, the result, and
   * another such run.
   */
  lemma {:induction false} TrimInThree(s: string, cutset: string)
    ensures AllIn(TrimmedBefore(s, cutset), cutset)
    ensures AllIn(TrimmedAfter(s, cutset), cutset)
    ensures s == TrimmedBefore(s, cutset) + Trim(s, cutset) + TrimmedAfter(s, cutset)
  {
    var left := TrimLeft(s, cutset);
    var r := TrimRight(left, cutset);
    var before := TrimmedBefore(s, cutset);
    var after := TrimmedAfter(s, cutset);
    TrimLeftSplit(s, cutset);
    TrimRightSplit(left, cutset);
    assert s == before + (r + after);
  }

  /** A run of cutset characters in front counts exactly its own length. */
  lemma {:induction false} LeadingCountRun(pre: string, rest: string, cutset: string)
    requires AllIn(pre, cutset) && (rest == [] || rest[0] !in cutset)
    ensures LeadingCount(pre + rest, cutset) == |pre|
    decreases |pre|
  {
    if |pre| > 0 {
      assert (pre + rest)[1..] == pre[1..] + rest;
      LeadingCountRun(pre[1..], rest, cutset);
    } else {
      assert pre + rest == rest;
    }
  }

  /** A run of cutset characters at the end counts exactly its own length. */
  lemma {:induction false} TrailingCountRun(rest: string, post: string, cutset: string)
    requires AllIn(post, cutset) && (rest == [] || Last(rest) !in cutset)
    ensures TrailingCount(rest + post, cutset) == |post|
    decreases |post|
  {
    if |post| > 0 {
      assert (rest + post)[..|rest + post| - 1] == rest + post[..|post| - 1];
      TrailingCountRun(rest, post[..|post| - 1], cutset);
    } else {
      assert rest + post == rest;
    }
  }

  /** TrimLeft removes exactly a leading run of cutset characters. */
  lemma {:induction false} TrimLeftRun(pre: string, rest: string, cutset: string)
    requires AllIn(pre, cutset) && (rest == [] || rest[0] !in cutset)
    ensures TrimLeft(pre + rest, cutset) == rest
  {
    LeadingCountRun(pre, rest, cutset);
    assert (pre + rest)[|pre|..] == rest;
  }

  /** TrimRight removes exactly a trailing run of cutset characters. */
  lemma {:induction false} TrimRightRun(rest: string, post: string, cutset: string)
    requires AllIn(post, cutset) && (rest == [] || Last(rest) !in cutset)
    ensures TrimRight(rest + post, cutset) == rest
  {
    TrailingCountRun(rest, post, cutset);
    assert (rest + post)[..|rest|] == rest;
  }

  /**
   * The converse of TrimInThree: between two runs of cutset characters, a
   * string with no cutset character at either end is what Trim keeps.
   */
  lemma {:induction false} TrimOfRuns(before: string, mid: string, after: string, cutset: string)
    requires AllIn(before, cutset) && AllIn(after, cutset)
    requires mid != [] && mid[0] !in cutset && Last(mid) !in cutset
    ensures Trim(before + mid + after, cutset) == mid
  {
    assert before + mid + after == before + (mid + after);
    TrimLeftRun(before, mid + after, cutset);
    TrimRightRun(mid, after, cutset);
  }

  /** A trailing run of cutset characters does not change what TrimRight keeps. */
  lemma {:induction false} TrimRightDropsRun(s: string, post: string, cutset: string)
    requires AllIn(post, cutset)
    ensures TrimRight(s + post, cutset) == TrimRight(s, cutset)
  {
    var right := TrimRight(s, cutset);
    var cut := s[|right|..];
    TrimRightSplit(s, cutset);
    assert s + post == right + (cut + post);
    assert AllIn(cut + post, cutset) by {
      forall k | 0 <= k < |cut + post|
        ensures (cut + post)[k] in cutset
      {
        if k < |cut| {
          assert (cut + post)[k] == cut[k];
        } else {
          assert (cut + post)[k] == post[k - |cut|];
        }
      }
    }
    TrimRightRun(right, cut + post, cutset);
  }
}
