/**
 * The ordering step of detection: a copy of the rules sorted by priority,
 * highest first, with `List.sort` (a stable sort) and a reversed natural
 * comparator. Rules of equal priority keep their ruleset order.
 */
module PrioritySort {
  import opened Model
  import opened Lists

  /** `r` placed before the first rule whose priority is not higher than its own. */
  function Insert(r: Rule, sorted: seq<Rule>): (result: seq<Rule>)
    ensures |result| == |sorted| + 1
  {
    if sorted == [] || sorted[0].priority <= r.priority then [r] + sorted
    else [sorted[0]] + Insert(r, sorted[1..])
  }

  /** The stable descending sort, by insertion from the back. */
  function SortByPriorityDesc(rules: seq<Rule>): (sorted: seq<Rule>)
    ensures |sorted| == |rules|
  {
    if rules == [] then [] else Insert(rules[0], SortByPriorityDesc(rules[1..]))
  }

  /** Priorities never increase along `s`. */
  predicate NonIncreasing(s: seq<Rule>) {
    forall i, j :: 0 <= i < j < |s| ==> s[i].priority >= s[j].priority
  }

  /** Selects the rules of one priority. */
  function HasPriority(p: int): Rule -> bool {
    (r: Rule) => r.priority == p
  }

  lemma {:induction false} InsertMultiset(r: Rule, sorted: seq<Rule>)
    ensures multiset(Insert(r, sorted)) == multiset(sorted) + multiset{r}
  {
    if sorted != [] && sorted[0].priority > r.priority {
      InsertMultiset(r, sorted[1..]);
      assert sorted == [sorted[0]] + sorted[1..];
    }
  }

  /** Sorting rearranges the rules: it neither drops nor duplicates any. */
  lemma {:induction false} SortPermutation(rules: seq<Rule>)
    ensures multiset(SortByPriorityDesc(rules)) == multiset(rules)
  {
    if rules != [] {
      SortPermutation(rules[1..]);
      InsertMultiset(rules[0], SortByPriorityDesc(rules[1..]));
      assert rules == [rules[0]] + rules[1..];
    }
  }

  lemma {:induction false} InsertNonIncreasing(r: Rule, sorted: seq<Rule>)
    requires NonIncreasing(sorted)
    ensures NonIncreasing(Insert(r, sorted))
  {
    if sorted != [] && sorted[0].priority > r.priority {
      InsertNonIncreasing(r, sorted[1..]);
      InsertMultiset(r, sorted[1..]);
      var tail := Insert(r, sorted[1..]);
      forall k | 0 <= k < |tail|
        ensures tail[k].priority <= sorted[0].priority
      {
        assert tail[k] in multiset(tail);
      }
    }
  }

  /** The sorted copy lists priorities from highest to lowest. */
  lemma {:induction false} SortNonIncreasing(rules: seq<Rule>)
    ensures NonIncreasing(SortByPriorityDesc(rules))
  {
    if rules != [] {
      SortNonIncreasing(rules[1..]);
      InsertNonIncreasing(rules[0], SortByPriorityDesc(rules[1..]));
    }
  }

  lemma {:induction false} InsertStable(r: Rule, sorted: seq<Rule>, p: int)
    ensures Filter(Insert(r, sorted), HasPriority(p)) ==
      (if r.priority == p then [r] else []) + Filter(sorted, HasPriority(p))
  {
    if sorted != [] && sorted[0].priority > r.priority {
      InsertStable(r, sorted[1..], p);
    }
  }

  /**
   * The sort is stable: the rules of any one priority appear in the sorted
   * copy in exactly their ruleset order.
   */
  lemma {:induction false} SortStable(rules: seq<Rule>, p: int)
    ensures Filter(SortByPriorityDesc(rules), HasPriority(p)) == Filter(rules, HasPriority(p))
  {
    if rules != [] {
      SortStable(rules[1..], p);
      InsertStable(rules[0], SortByPriorityDesc(rules[1..]), p);
    }
  }

  /** No rule of `s` has a priority above `p`. */
  predicate AtMost(s: seq<Rule>, p: int) {
    forall i :: 0 <= i < |s| ==> s[i].priority <= p
  }

  lemma FilterAtMost(s: seq<Rule>, keep: Rule -> bool, p: int)
    requires AtMost(s, p)
    ensures AtMost(Filter(s, keep), p)
  {
  }

  /** A subsequence picked by a filter keeps the priorities non-increasing. */
  lemma {:induction false} FilterNonIncreasing(s: seq<Rule>, keep: Rule -> bool)
    requires NonIncreasing(s)
    ensures NonIncreasing(Filter(s, keep))
  {
    if s != [] {
      FilterNonIncreasing(s[1..], keep);
      if keep(s[0]) {
        var tail := Filter(s[1..], keep);
        assert AtMost(s[1..], s[0].priority);
        FilterAtMost(s[1..], keep, s[0].priority);
        var r := [s[0]] + tail;
        forall i, j | 0 <= i < j < |r|
          ensures r[i].priority >= r[j].priority
        {
          assert r[j] == tail[j - 1];
          if i > 0 {
            assert r[i] == tail[i - 1];
          }
        }
      }
    }
  }

  /** Every rule of the ruleset has a place in the sorted copy. */
  lemma PlaceInSorted(rules: seq<Rule>, i: int) returns (j: int)
    requires 0 <= i < |rules|
    ensures 0 <= j < |rules| && SortByPriorityDesc(rules)[j] == rules[i]
  {
    SortPermutation(rules);
    assert rules[i] in multiset(SortByPriorityDesc(rules));
    j :| 0 <= j < |rules| && SortByPriorityDesc(rules)[j] == rules[i];
  }
}
