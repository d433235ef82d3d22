/**
 * The version string the policy backend gives a set of published policies:
 * "v-empty" for none, otherwise "v-" and the hexadecimal `String.hashCode`
 * of a seed built from the policies sorted by id, ignoring case.
 */
module PolicyVersion {
  import opened Policies
  import opened Strings
  import opened Integers

  /** Lexicographic order on characters, a shorter prefix first (`String.compareTo` < 0). */
  predicate LexLess(a: string, b: string)
    decreases |a|
  {
    if a == [] then b != []
    else b != [] && (a[0] < b[0] || (a[0] == b[0] && LexLess(a[1..], b[1..])))
  }

  lemma {:induction false} LexAsymmetric(a: string, b: string)
    ensures !(LexLess(a, b) && LexLess(b, a))
    decreases |a|
  {
    if a != [] && b != [] && a[0] == b[0] {
      LexAsymmetric(a[1..], b[1..]);
    }
  }

  lemma {:induction false} LexTotal(a: string, b: string)
    requires a != b
    ensures LexLess(a, b) || LexLess(b, a)
    decreases |a|
  {
    if a != [] && b != [] && a[0] == b[0] {
      assert a == [a[0]] + a[1..] && b == [b[0]] + b[1..];
      LexTotal(a[1..], b[1..]);
    }
  }

  lemma {:induction false} LexTransitive(a: string, b: string, c: string)
    requires LexLess(a, b) && LexLess(b, c)
    ensures LexLess(a, c)
    decreases |a|
  {
    if a != [] && a[0] == b[0] && b[0] == c[0] {
      LexTransitive(a[1..], b[1..], c[1..]);
    }
  }

  /** The sort key: the id compared ignoring case (`compareToIgnoreCase`). */
  function Key(p: PolicyData): string {
    ToLower(p.id)
  }

  /** `p` sorts strictly before `q`. */
  predicate Before(p: PolicyData, q: PolicyData) {
    LexLess(Key(p), Key(q))
  }

  /** `p` placed before the first policy that does not sort before it, so ties keep their order. */
  function InsertById(p: PolicyData, sorted: seq<PolicyData>): (r: seq<PolicyData>)
    ensures |r| == |sorted| + 1
  {
    if sorted == [] || !Before(sorted[0], p) then [p] + sorted
    else [sorted[0]] + InsertById(p, sorted[1..])
  }

  /** `Stream.sorted` with the case-insensitive id comparator: a stable sort. */
  function SortById(policies: seq<PolicyData>): (sorted: seq<PolicyData>)
    ensures |sorted| == |policies|
  {
    if policies == [] then [] else InsertById(policies[0], SortById(policies[1..]))
  }

  /** No two policies share an id ignoring case. */
  predicate DistinctKeys(s: seq<PolicyData>) {
    forall i, j :: 0 <= i < j < |s| ==> Key(s[i]) != Key(s[j])
  }

  /** Keys strictly increase along `s`. */
  predicate StrictlyAscending(s: seq<PolicyData>) {
    forall i, j :: 0 <= i < j < |s| ==> Before(s[i], s[j])
  }

  lemma {:induction false} InsertMultiset(p: PolicyData, sorted: seq<PolicyData>)
    ensures multiset(InsertById(p, sorted)) == multiset(sorted) + multiset{p}
  {
    if sorted != [] && Before(sorted[0], p) {
      InsertMultiset(p, sorted[1..]);
      assert sorted == [sorted[0]] + sorted[1..];
    }
  }

  /** The sort rearranges the policies: it neither drops nor duplicates any. */
  lemma {:induction false} SortPermutation(policies: seq<PolicyData>)
    ensures multiset(SortById(policies)) == multiset(policies)
  {
    if policies != [] {
      var rest := policies[1..];
      SortPermutation(rest);
      InsertMultiset(policies[0], SortById(rest));
      assert policies == [policies[0]] + rest;
      assert multiset(policies) == multiset(rest) + multiset{policies[0]};
    }
  }

  /** No key of `s` equals the key of `p`. */
  predicate KeyAbsent(p: PolicyData, s: seq<PolicyData>) {
    forall k :: 0 <= k < |s| ==> Key(s[k]) != Key(p)
  }

  /** Every policy of `s` sorts after `p`. */
  predicate AllAfter(p: PolicyData, s: seq<PolicyData>) {
    forall k :: 0 <= k < |s| ==> Before(p, s[k])
  }

  lemma PrependAscending(p: PolicyData, s: seq<PolicyData>)
    requires StrictlyAscending(s) && AllAfter(p, s)
    ensures StrictlyAscending([p] + s)
  {
    var r := [p] + s;
    forall i, j | 0 <= i < j < |r|
      ensures Before(r[i], r[j])
    {
      assert r[j] == s[j - 1];
      if i > 0 {
        assert r[i] == s[i - 1];
      }
    }
  }

  lemma {:induction false} InsertAscending(p: PolicyData, sorted: seq<PolicyData>)
    requires StrictlyAscending(sorted) && KeyAbsent(p, sorted)
    ensures StrictlyAscending(InsertById(p, sorted))
  {
    if sorted == [] {
    } else if !Before(sorted[0], p) {
      LexTotal(Key(p), Key(sorted[0]));
      forall k | 0 <= k < |sorted|
        ensures Before(p, sorted[k])
      {
        if k > 0 {
          LexTransitive(Key(p), Key(sorted[0]), Key(sorted[k]));
        }
      }
      PrependAscending(p, sorted);
    } else {
      var tail := InsertById(p, sorted[1..]);
      InsertAscending(p, sorted[1..]);
      InsertMultiset(p, sorted[1..]);
      forall k | 0 <= k < |tail|
        ensures Before(sorted[0], tail[k])
      {
        assert tail[k] in multiset(sorted[1..]) + multiset{p};
        if tail[k] != p {
          assert tail[k] in sorted[1..];
        }
      }
      PrependAscending(sorted[0], tail);
    }
  }

  /** Every policy of `sorted` comes from `s`, so it keeps a distinct key from `p`. */
  lemma KeyAbsentAfterPermutation(p: PolicyData, s: seq<PolicyData>, sorted: seq<PolicyData>)
    requires KeyAbsent(p, s) && multiset(sorted) == multiset(s)
    ensures KeyAbsent(p, sorted)
  {
    forall k | 0 <= k < |sorted|
      ensures Key(sorted[k]) != Key(p)
    {
      assert sorted[k] in multiset(s);
    }
  }

  /** With distinct keys the sorted copy is strictly ascending. */
  lemma {:induction false} SortAscending(policies: seq<PolicyData>)
    requires DistinctKeys(policies)
    ensures StrictlyAscending(SortById(policies))
  {
    if policies != [] {
      var rest := policies[1..];
      SortAscending(rest);
      SortPermutation(rest);
      assert KeyAbsent(policies[0], rest) by {
        forall k | 0 <= k < |rest|
          ensures Key(rest[k]) != Key(policies[0])
        {
          assert rest[k] == policies[k + 1];
        }
      }
      KeyAbsentAfterPermutation(policies[0], rest, SortById(rest));
      InsertAscending(policies[0], SortById(rest));
    }
  }

  /** Two strictly ascending lists of the same policies start with the same policy. */
  lemma SameFirst(a: seq<PolicyData>, b: seq<PolicyData>)
    requires StrictlyAscending(a) && StrictlyAscending(b)
    requires a != [] && multiset(a) == multiset(b)
    ensures b != [] && a[0] == b[0]
  {
    assert a[0] in multiset(b);
    assert b != [];
    assert b[0] in multiset(a);
    var i :| 0 <= i < |b| && b[i] == a[0];
    var j :| 0 <= j < |a| && a[j] == b[0];
    if i > 0 && j > 0 {
      assert Before(b[0], a[0]) && Before(a[0], b[0]);
      LexAsymmetric(Key(a[0]), Key(b[0]));
    }
  }

  /** Removing the same first policy from two permutations leaves permutations. */
  lemma TailPermutation(a: seq<PolicyData>, b: seq<PolicyData>)
    requires a != [] && b != [] && a[0] == b[0] && multiset(a) == multiset(b)
    ensures multiset(a[1..]) == multiset(b[1..])
  {
    assert a == [a[0]] + a[1..] && b == [b[0]] + b[1..];
    assert multiset(a[1..]) == multiset(a) - multiset{a[0]};
    assert multiset(b[1..]) == multiset(b) - multiset{b[0]};
  }

  /** Two strictly ascending lists of the same policies are the same list. */
  lemma {:induction false} AscendingUnique(a: seq<PolicyData>, b: seq<PolicyData>)
    requires StrictlyAscending(a) && StrictlyAscending(b)
    requires multiset(a) == multiset(b)
    ensures a == b
    decreases |a|
  {
    if a == [] {
      assert |b| == |multiset(b)| == 0;
    } else {
      SameFirst(a, b);
      TailPermutation(a, b);
      AscendingUnique(a[1..], b[1..]);
      assert a == [a[0]] + a[1..] && b == [b[0]] + b[1..];
    }
  }

  /** With distinct keys a policy occurs at most once. */
  lemma {:induction false} OccursAtMostOnce(s: seq<PolicyData>, x: PolicyData)
    requires DistinctKeys(s)
    ensures multiset(s)[x] <= 1
  {
    if s != [] {
      assert s == [s[0]] + s[1..];
      assert DistinctKeys(s[1..]) by {
        forall i, j | 0 <= i < j < |s| - 1
          ensures Key(s[1..][i]) != Key(s[1..][j])
        {
          assert s[1..][i] == s[i + 1] && s[1..][j] == s[j + 1];
        }
      }
      OccursAtMostOnce(s[1..], x);
      forall k | 0 <= k < |s| - 1
        ensures s[1..][k] != s[0]
      {
        assert s[1..][k] == s[k + 1];
      }
      assert s[0] !in multiset(s[1..]);
    }
  }

  /** A policy at two positions is counted at least twice. */
  lemma OccursTwice(t: seq<PolicyData>, i: int, j: int)
    requires 0 <= i < j < |t| && t[i] == t[j]
    ensures multiset(t)[t[i]] >= 2
  {
    assert t == t[..j] + [t[j]] + t[j + 1..];
    assert t[..j][i] == t[i];
    assert multiset(t[..j])[t[i]] >= 1;
  }

  /** Distinct keys survive a rearrangement. */
  lemma DistinctKeysPermutation(s: seq<PolicyData>, t: seq<PolicyData>)
    requires DistinctKeys(s) && multiset(s) == multiset(t)
    ensures DistinctKeys(t)
  {
    forall i, j | 0 <= i < j < |t|
      ensures Key(t[i]) != Key(t[j])
    {
      assert t[i] in multiset(s) && t[j] in multiset(s);
      var i' :| 0 <= i' < |s| && s[i'] == t[i];
      var j' :| 0 <= j' < |s| && s[j'] == t[j];
      if i' == j' {
        OccursTwice(t, i, j);
        OccursAtMostOnce(s, t[i]);
      }
    }
  }

  /**
   * With ids distinct ignoring case, sorting forgets the order the policies
   * were listed in.
   */
  lemma SortIgnoresOrder(s: seq<PolicyData>, t: seq<PolicyData>)
    requires DistinctKeys(s) && multiset(s) == multiset(t)
    ensures SortById(s) == SortById(t)
  {
    DistinctKeysPermutation(s, t);
    SortAscending(s);
    SortAscending(t);
    SortPermutation(s);
    SortPermutation(t);
    AscendingUnique(SortById(s), SortById(t));
  }

  /** One policy's part of the seed: id, name, level, priority and the comma-joined patterns. */
  function Line(p: PolicyData): string {
    p.id + ":" + p.name + ":" + p.level + ":" + IntToString(p.priority) + ":" + Join(",", p.patterns)
  }

  function Lines(policies: seq<PolicyData>): (lines: seq<string>)
    ensures |lines| == |policies|
    ensures forall i :: 0 <= i < |policies| ==> lines[i] == Line(policies[i])
  {
    if policies == [] then [] else [Line(policies[0])] + Lines(policies[1..])
  }

  /** The hashed seed: the lines of the id-sorted policies joined by "|". */
  function Seed(published: seq<PolicyData>): string {
    Join("|", Lines(SortById(published)))
  }

  /** `calculateVersion`: "v-empty" for no policies, else "v-" and the seed's hash in hex. */
  function CalculateVersion(published: seq<PolicyData>): (version: string)
    ensures version == "v-empty" <==> published == []
    ensures published != [] ==>
      && 3 <= |version| <= 10
      && version[..2] == "v-"
      && AllHex(version[2..])
  {
    if published == [] then "v-empty"
    else
      var digits := ToHexString(StringHash(Seed(published)));
      ToHexStringLength(StringHash(Seed(published)));
      var version := "v-" + digits;
      assert version[2..] == digits;
      assert |version| >= 4 ==> version[3] == digits[1] && IsHexChar(version[3]);
      assert !IsHexChar("v-empty"[3]);
      version
  }

  /**
   * The version of a set of published policies does not depend on the order
   * they are listed in, as long as their ids are distinct ignoring case.
   */
  lemma VersionIgnoresOrder(s: seq<PolicyData>, t: seq<PolicyData>)
    requires DistinctKeys(s) && multiset(s) == multiset(t)
    ensures CalculateVersion(s) == CalculateVersion(t)
  {
    if s != [] {
      assert |t| == |multiset(t)| == |multiset(s)| == |s|;
      SortIgnoresOrder(s, t);
    } else {
      assert |t| == |multiset(t)| == 0;
    }
  }
}
