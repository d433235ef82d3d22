/**
 * Approximate matching by Levenshtein distance with a fixed threshold of two
 * edits: a dynamic programme over a two-dimensional table, proved equal to
 * the recursive definition of unit-cost edit distance.
 */
module FuzzyMatcher {

  /** The largest edit distance still counted as a match. */
  const MaxDistance: nat := 2

  function Min3(a: int, b: int, c: int): (m: int)
    ensures m <= a && m <= b && m <= c
    ensures m == a || m == b || m == c
  {
    if a <= b && a <= c then a else if b <= c then b else c
  }

  /**
   * The unit-cost edit distance between `s` and `t`: the fewest insertions,
   * deletions and substitutions turning one into the other, defined on the
   * last characters of both strings.
   */
  function EditDistance(s: string, t: string): nat
    decreases |s| + |t|
  {
    if |s| == 0 then |t|
    else if |t| == 0 then |s|
    else
      var m, n := |s| - 1, |t| - 1;
      var cost := if s[m] == t[n] then 0 else 1;
      Min3(EditDistance(s[..m], t) + 1, EditDistance(s, t[..n]) + 1, EditDistance(s[..m], t[..n]) + cost)
  }

  /** Whether `text` is within `MaxDistance` edits of `pattern`. */
  predicate FuzzyMatch(pattern: string, text: string) {
    EditDistance(pattern, text) <= MaxDistance
  }

  /** One cell of the table, written in terms of its three neighbours. */
  lemma EditDistanceStep(s: string, t: string, i: nat, j: nat)
    requires 1 <= i <= |s| && 1 <= j <= |t|
    ensures EditDistance(s[..i], t[..j]) == Min3(
      EditDistance(s[..i - 1], t[..j]) + 1,
      EditDistance(s[..i], t[..j - 1]) + 1,
      EditDistance(s[..i - 1], t[..j - 1]) + (if s[i - 1] == t[j - 1] then 0 else 1))
  {
    assert s[..i][..i - 1] == s[..i - 1];
    assert t[..j][..j - 1] == t[..j - 1];
  }

  /** Rows `0..rows` of `dp` hold the distances between prefixes of `s` and `t`. */
  ghost predicate RowsFilled(dp: array2<int>, s: string, t: string, rows: nat)
    reads dp
    requires dp.Length0 == |s| + 1 && dp.Length1 == |t| + 1 && rows <= |s| + 1
  {
    forall a, b :: 0 <= a < rows && 0 <= b <= |t| ==> dp[a, b] == EditDistance(s[..a], t[..b])
  }

  /**
   * `levenshteinDistance`: fills `dp[i, j]` with the distance between the
   * first `i` characters of `s` and the first `j` characters of `t`, row by
   * row, and returns the bottom-right cell.
   */
  method LevenshteinDistance(s: string, t: string) returns (d: nat)
    ensures d == EditDistance(s, t)
  {
    var m, n := |s|, |t|;
    var dp := new int[m + 1, n + 1];
    for i := 0 to m + 1
      invariant forall a :: 0 <= a < i ==> dp[a, 0] == a
    {
      dp[i, 0] := i;
    }
    for j := 0 to n + 1
      invariant forall a :: 0 <= a <= m ==> dp[a, 0] == a
      invariant forall b :: 0 <= b < j ==> dp[0, b] == b
    {
      dp[0, j] := j;
    }
    assert RowsFilled(dp, s, t, 1);
    for i := 1 to m + 1
      invariant RowsFilled(dp, s, t, i)
      invariant forall a :: i <= a <= m ==> dp[a, 0] == a
    {
      FillRow(dp, s, t, i);
    }
    assert s[..m] == s && t[..n] == t;
    d := dp[m, n];
  }

  /** The inner loop: fills row `i` from row `i - 1` and the cell to its left. */
  method FillRow(dp: array2<int>, s: string, t: string, i: nat)
    requires dp.Length0 == |s| + 1 && dp.Length1 == |t| + 1 && 1 <= i <= |s|
    requires RowsFilled(dp, s, t, i) && dp[i, 0] == i
    modifies dp
    ensures RowsFilled(dp, s, t, i + 1)
    ensures forall a, b :: 0 <= a <= |s| && 0 <= b <= |t| && a != i ==> dp[a, b] == old(dp[a, b])
  {
    assert dp[i, 0] == EditDistance(s[..i], t[..0]);
    for j := 1 to |t| + 1
      invariant forall b :: 0 <= b < j ==> dp[i, b] == EditDistance(s[..i], t[..b])
      invariant forall a, b :: 0 <= a <= |s| && 0 <= b <= |t| && a != i ==> dp[a, b] == old(dp[a, b])
    {
      var cost := if s[i - 1] == t[j - 1] then 0 else 1;
      assert dp[i - 1, j] == EditDistance(s[..i - 1], t[..j]);
      assert dp[i - 1, j - 1] == EditDistance(s[..i - 1], t[..j - 1]);
      assert dp[i, j - 1] == EditDistance(s[..i], t[..j - 1]);
      EditDistanceStep(s, t, i, j);
      dp[i, j] := Min3(dp[i - 1, j] + 1, dp[i, j - 1] + 1, dp[i - 1, j - 1] + cost);
    }
    forall a, b | 0 <= a < i + 1 && 0 <= b <= |t|
      ensures dp[a, b] == EditDistance(s[..a], t[..b])
    {
      if a < i {
        assert dp[a, b] == old(dp[a, b]);
      }
    }
  }

  /** `matches(pattern, text)`: true iff the edit distance is at most two. */
  method Matches(pattern: string, text: string) returns (r: bool)
    ensures r <==> EditDistance(pattern, text) <= 2
  {
    var distance := LevenshteinDistance(pattern, text);
    r := distance <= MaxDistance;
  }

  /** The distance to or from the empty string is the other string's length. */
  lemma EditDistanceEmpty(s: string)
    ensures EditDistance(s, []) == |s| && EditDistance([], s) == |s|
  {
  }

  /** Every string is at distance zero from itself, so it fuzzy-matches itself. */
  lemma {:induction false} EditDistanceSelf(s: string)
    ensures EditDistance(s, s) == 0
    ensures FuzzyMatch(s, s)
  {
    if s != [] {
      EditDistanceSelf(s[..|s| - 1]);
    }
  }

  /** Distance zero only between equal strings. */
  lemma {:induction false} EditDistanceZero(s: string, t: string)
    requires EditDistance(s, t) == 0
    ensures s == t
    decreases |s| + |t|
  {
    if |s| > 0 && |t| > 0 {
      var m, n := |s| - 1, |t| - 1;
      EditDistanceZero(s[..m], t[..n]);
      assert s == s[..m] + [s[m]] && t == t[..n] + [t[n]];
    }
  }

  lemma {:induction false} EditDistanceSymmetric(s: string, t: string)
    ensures EditDistance(s, t) == EditDistance(t, s)
    decreases |s| + |t|
  {
    if |s| > 0 && |t| > 0 {
      var m, n := |s| - 1, |t| - 1;
      EditDistanceSymmetric(s[..m], t);
      EditDistanceSymmetric(s, t[..n]);
      EditDistanceSymmetric(s[..m], t[..n]);
    }
  }

  /** The distance is at least the length difference and at most the longer length. */
  lemma {:induction false} EditDistanceBounds(s: string, t: string)
    ensures |s| - |t| <= EditDistance(s, t) && |t| - |s| <= EditDistance(s, t)
    ensures EditDistance(s, t) <= if |s| < |t| then |t| else |s|
    decreases |s| + |t|
  {
    if |s| > 0 && |t| > 0 {
      var m, n := |s| - 1, |t| - 1;
      EditDistanceBounds(s[..m], t);
      EditDistanceBounds(s, t[..n]);
      EditDistanceBounds(s[..m], t[..n]);
    }
  }

  /** Strings whose lengths differ by more than two never fuzzy-match. */
  lemma LengthGapNeverMatches(pattern: string, text: string)
    requires |pattern| - |text| > MaxDistance || |text| - |pattern| > MaxDistance
    ensures !FuzzyMatch(pattern, text)
  {
    EditDistanceBounds(pattern, text);
  }

  /** Strings with no character in common are as far apart as the longer one is long. */
  lemma {:induction false} EditDistanceDisjoint(s: string, t: string)
    requires forall i, j :: 0 <= i < |s| && 0 <= j < |t| ==> s[i] != t[j]
    ensures EditDistance(s, t) == if |s| < |t| then |t| else |s|
    decreases |s| + |t|
  {
    if |s| > 0 && |t| > 0 {
      var m, n := |s| - 1, |t| - 1;
      EditDistanceDisjoint(s[..m], t);
      EditDistanceDisjoint(s, t[..n]);
      EditDistanceDisjoint(s[..m], t[..n]);
    }
  }

  /** Appending the same suffix to both strings never increases the distance. */
  lemma {:induction false} EditDistanceCommonSuffix(s: string, t: string, u: string)
    ensures EditDistance(s + u, t + u) <= EditDistance(s, t)
  {
    if u != [] {
      var k := |u| - 1;
      EditDistanceCommonSuffix(s, t, u[..k]);
      assert (s + u)[..|s + u| - 1] == s + u[..k];
      assert (t + u)[..|t + u| - 1] == t + u[..k];
    } else {
      assert s + u == s && t + u == t;
    }
  }

  /**
   * Characters are compared exactly: "Hello" is one edit from "hello", and
   * "hello" is five edits from "xyz", so only the former pair matches.
   */
  lemma CaseSensitiveExamples()
    ensures EditDistance("Hello", "hello") == 1 && FuzzyMatch("Hello", "hello")
    ensures EditDistance("hello", "xyz") == 5 && !FuzzyMatch("hello", "xyz")
  {
    OneCaseApart();
    NoLetterInCommon();
  }

  lemma OneCaseApart()
    ensures EditDistance("Hello", "hello") == 1
  {
    assert EditDistance("H", "h") == 1;
    EditDistanceCommonSuffix("H", "h", "ello");
    assert "H" + "ello" == "Hello" && "h" + "ello" == "hello";
    if EditDistance("Hello", "hello") == 0 {
      EditDistanceZero("Hello", "hello");
    }
  }

  lemma NoLetterInCommon()
    ensures EditDistance("hello", "xyz") == 5
  {
    EditDistanceDisjoint("hello", "xyz");
  }
}
