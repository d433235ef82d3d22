/**
 * The classification engine: it sorts a copy of the current rules by
 * priority, skips disabled rules, and tests each rule's matchers until one
 * hits; in top-match mode it stops at the first matching rule. Compiled
 * regular expressions are kept in the shared LRU pattern cache.
 */
module DetectionEngine {
  import opened Wrappers
  import opened Model
  import opened Strings
  import opened Lists
  import opened Regex
  import opened PrioritySort
  import opened DetectionResults
  import FuzzyMatcher
  import DictionaryMatcher
  import PatternCache
  import RuleManager

  /** A matcher type the engine understands, compared ignoring case. */
  predicate KnownKind(kind: string) {
    EqualsIgnoreCase("regex", kind) || EqualsIgnoreCase("fuzzy", kind) || EqualsIgnoreCase("dictionary", kind)
  }

  /**
   * One matcher against the data: a regular expression is compiled (which
   * may throw) and searched for; a fuzzy pattern must be within two edits of
   * the whole data; a dictionary pattern must have an entry in the data.
   */
  function MatcherHit(m: MatcherDef, data: string, lib: RegexLib): (r: Result<bool, PatternSyntaxError>)
    ensures r.Err? <==> m.kind.Some? && EqualsIgnoreCase("regex", m.kind.value) && !lib.compiles(m.pattern)
    ensures m.kind.None? || !KnownKind(m.kind.value) ==> r == Ok(false)
  {
    match m.kind
    case None => Ok(false)
    case Some(kind) =>
      if EqualsIgnoreCase("regex", kind) then
        match Compile(lib, m.pattern)
        case Err(e) => Err(e)
        case Ok(p) => Ok(Find(lib, p, data))
      else if EqualsIgnoreCase("fuzzy", kind) then Ok(FuzzyMatcher.FuzzyMatch(m.pattern, data))
      else if EqualsIgnoreCase("dictionary", kind) then Ok(DictionaryMatcher.DictionaryHit(Some(data), Some(m.pattern)))
      else Ok(false)
  }

  /** `matches(rule, data)`: the matchers in order, stopping at the first hit or exception. */
  function RuleMatches(matchers: seq<MatcherDef>, data: string, lib: RegexLib): (r: Result<bool, PatternSyntaxError>)
    ensures r == Ok(true) ==> exists i :: 0 <= i < |matchers| && MatcherHit(matchers[i], data, lib) == Ok(true)
    ensures r.Err? ==> exists i :: 0 <= i < |matchers| && MatcherHit(matchers[i], data, lib).Err?
    decreases |matchers|
  {
    if matchers == [] then Ok(false)
    else
      match MatcherHit(matchers[0], data, lib)
      case Err(e) => Err(e)
      case Ok(true) => Ok(true)
      case Ok(false) =>
        var rest := RuleMatches(matchers[1..], data, lib);
        assert rest == Ok(true) ==> exists i :: 0 <= i < |matchers| && MatcherHit(matchers[i], data, lib) == Ok(true) by {
          if rest == Ok(true) {
            var i :| 0 <= i < |matchers| - 1 && MatcherHit(matchers[1..][i], data, lib) == Ok(true);
            assert matchers[1..][i] == matchers[i + 1];
          }
        }
        assert rest.Err? ==> exists i :: 0 <= i < |matchers| && MatcherHit(matchers[i], data, lib).Err? by {
          if rest.Err? {
            var i :| 0 <= i < |matchers| - 1 && MatcherHit(matchers[1..][i], data, lib).Err?;
            assert matchers[1..][i] == matchers[i + 1];
          }
        }
        rest
  }

  /** When every regex compiles, a rule matches exactly when one of its matchers hits. */
  lemma {:induction false} RuleMatchesWithoutErrors(matchers: seq<MatcherDef>, data: string, lib: RegexLib)
    requires forall i :: 0 <= i < |matchers| ==> MatcherHit(matchers[i], data, lib).Ok?
    ensures RuleMatches(matchers, data, lib) ==
      Ok(exists i :: 0 <= i < |matchers| && MatcherHit(matchers[i], data, lib) == Ok(true))
    decreases |matchers|
  {
    if matchers != [] {
      RuleMatchesWithoutErrors(matchers[1..], data, lib);
      if MatcherHit(matchers[0], data, lib) == Ok(false) {
        forall i | 0 < i < |matchers|
          ensures MatcherHit(matchers[i], data, lib) == MatcherHit(matchers[1..][i - 1], data, lib)
        {
        }
      }
    }
  }

  /** A matcher of null or unknown type can be removed without changing the rule's outcome. */
  lemma {:induction false} IgnoredMatcherContributesNothing(matchers: seq<MatcherDef>, k: nat, data: string, lib: RegexLib)
    requires k < |matchers|
    requires matchers[k].kind.None? || !KnownKind(matchers[k].kind.value)
    ensures RuleMatches(matchers[..k] + matchers[k + 1..], data, lib) == RuleMatches(matchers, data, lib)
    decreases k
  {
    if k == 0 {
      assert matchers[..0] + matchers[1..] == matchers[1..];
    } else {
      IgnoredMatcherContributesNothing(matchers[1..], k - 1, data, lib);
      var shorter := matchers[..k] + matchers[k + 1..];
      assert shorter[0] == matchers[0];
      assert shorter[1..] == matchers[1..][..k - 1] + matchers[1..][k..];
    }
  }

  /** The rules a detection reports: enabled and matching without an exception. */
  function Selected(data: string, lib: RegexLib): Rule -> bool {
    (r: Rule) => r.enabled && RuleMatches(r.matchers, data, lib) == Ok(true)
  }

  /** The loop of `detect` over the sorted rules. */
  function Scan(rules: seq<Rule>, data: string, mode: Mode, lib: RegexLib): (r: Result<seq<Rule>, PatternSyntaxError>)
    ensures r.Ok? && mode == TopMatchOnly ==> |r.value| <= 1
    decreases |rules|
  {
    if rules == [] then Ok([])
    else if !rules[0].enabled then Scan(rules[1..], data, mode, lib)
    else
      match RuleMatches(rules[0].matchers, data, lib)
      case Err(e) => Err(e)
      case Ok(false) => Scan(rules[1..], data, mode, lib)
      case Ok(true) =>
        if mode == TopMatchOnly then Ok([rules[0]])
        else Extend([rules[0]], Scan(rules[1..], data, mode, lib))
  }

  /** A scan result with `prefix` in front. */
  function Extend(prefix: seq<Rule>, rest: Result<seq<Rule>, PatternSyntaxError>): (r: Result<seq<Rule>, PatternSyntaxError>)
    ensures r.Ok? <==> rest.Ok?
    ensures r.Ok? ==> |r.value| == |prefix| + |rest.value|
    ensures r.Ok? ==> r.value[..|prefix|] == prefix && r.value[|prefix|..] == rest.value
    ensures r.Err? ==> r.error == rest.error
  {
    match rest
    case Err(e) => Err(e)
    case Ok(tail) => Ok(prefix + tail)
  }

  lemma ExtendTwice(first: seq<Rule>, second: seq<Rule>, rest: Result<seq<Rule>, PatternSyntaxError>)
    ensures Extend(first, Extend(second, rest)) == Extend(first + second, rest)
  {
    if rest.Ok? {
      assert first + (second + rest.value) == (first + second) + rest.value;
    }
  }

  /** All-matches mode reports exactly the selected rules, in scan order. */
  lemma {:induction false} ScanAllIsFilter(rules: seq<Rule>, data: string, lib: RegexLib)
    requires Scan(rules, data, AllMatches, lib).Ok?
    ensures Scan(rules, data, AllMatches, lib).value == Filter(rules, Selected(data, lib))
    decreases |rules|
  {
    if rules != [] {
      ScanAllIsFilter(rules[1..], data, lib);
    }
  }

  /** All-matches mode throws exactly when some enabled rule's matchers throw. */
  lemma {:induction false} ScanAllErrors(rules: seq<Rule>, data: string, lib: RegexLib)
    ensures Scan(rules, data, AllMatches, lib).Err? <==>
      exists i :: 0 <= i < |rules| && rules[i].enabled && RuleMatches(rules[i].matchers, data, lib).Err?
    decreases |rules|
  {
    if rules != [] {
      ScanAllErrors(rules[1..], data, lib);
      assert forall i :: 0 < i < |rules| ==> rules[i] == rules[1..][i - 1];
    }
  }

  /**
   * Top-match mode answers the first rule of the all-matches answer (or
   * nothing), and throws only when all-matches mode throws too.
   */
  lemma {:induction false} ScanTopIsFirstOfAll(rules: seq<Rule>, data: string, lib: RegexLib)
    ensures Scan(rules, data, TopMatchOnly, lib).Err? ==> Scan(rules, data, AllMatches, lib).Err?
    ensures Scan(rules, data, AllMatches, lib).Ok? ==>
      var all := Scan(rules, data, AllMatches, lib).value;
      Scan(rules, data, TopMatchOnly, lib) == Ok(if all == [] then [] else all[..1])
    decreases |rules|
  {
    if rules != [] {
      ScanTopIsFirstOfAll(rules[1..], data, lib);
    }
  }

  /**
   * A top match is selected, and every rule ahead of it in scan order is
   * not: no earlier rule is both enabled and matching.
   */
  lemma {:induction false} ScanTopIsFirstSelected(rules: seq<Rule>, data: string, lib: RegexLib) returns (k: nat)
    requires Scan(rules, data, TopMatchOnly, lib).Ok?
    requires Scan(rules, data, TopMatchOnly, lib).value != []
    ensures k < |rules| && rules[k] == Scan(rules, data, TopMatchOnly, lib).value[0]
    ensures Selected(data, lib)(rules[k])
    ensures forall j :: 0 <= j < k ==> !Selected(data, lib)(rules[j])
    decreases |rules|
  {
    if Selected(data, lib)(rules[0]) {
      k := 0;
    } else {
      assert Scan(rules, data, TopMatchOnly, lib) == Scan(rules[1..], data, TopMatchOnly, lib);
      var rest := ScanTopIsFirstSelected(rules[1..], data, lib);
      k := rest + 1;
      forall j | 0 < j < k
        ensures !Selected(data, lib)(rules[j])
      {
        assert rules[j] == rules[1..][j - 1];
      }
    }
  }

  /** An empty answer without an exception means no rule is selected, and conversely. */
  lemma {:induction false} ScanEmptyIff(rules: seq<Rule>, data: string, mode: Mode, lib: RegexLib)
    requires Scan(rules, data, mode, lib).Ok?
    ensures Scan(rules, data, mode, lib).value == [] <==>
      forall i :: 0 <= i < |rules| ==> !Selected(data, lib)(rules[i])
    decreases |rules|
  {
    if rules != [] {
      if !Selected(data, lib)(rules[0]) {
        ScanEmptyIff(rules[1..], data, mode, lib);
        assert forall i :: 0 < i < |rules| ==> rules[i] == rules[1..][i - 1];
      }
    }
  }

  /** `detect` on a ruleset snapshot (null when the manager holds none). */
  function Detection(snapshot: Option<Ruleset>, data: string, mode: Mode, lib: RegexLib)
    : (r: Result<DetectionResult, PatternSyntaxError>)
    ensures r.Ok? ==> r.value.data == data && r.value.matchedRules.Some?
    ensures r.Ok? && mode == TopMatchOnly ==> |r.value.matchedRules.value| <= 1
  {
    if snapshot.None? || snapshot.value.rules.None? then Ok(DetectionResult(data, Some([])))
    else
      match Scan(SortByPriorityDesc(snapshot.value.rules.value), data, mode, lib)
      case Err(e) => Err(e)
      case Ok(matched) => Ok(DetectionResult(data, Some(matched)))
  }

  /** Without a ruleset, or without rules, the result echoes the input, lists nothing and has no match. */
  lemma NoRulesNoMatch(snapshot: Option<Ruleset>, data: string, mode: Mode, lib: RegexLib)
    requires snapshot.None? || snapshot.value.rules.None?
    ensures Detection(snapshot, data, mode, lib) == Ok(DetectionResult(data, Some([])))
    ensures !Detection(snapshot, data, mode, lib).value.HasMatch()
  {
  }

  /**
   * All-matches mode lists exactly the enabled, matching rules of the
   * ruleset, sorted by priority: never a disabled rule, and each rule as
   * often as the ruleset holds it.
   */
  lemma AllMatchesExactly(ruleset: Ruleset, data: string, lib: RegexLib)
    requires ruleset.rules.Some?
    requires Detection(Some(ruleset), data, AllMatches, lib).Ok?
    ensures var matched := Detection(Some(ruleset), data, AllMatches, lib).value.matchedRules.value;
      matched == Filter(SortByPriorityDesc(ruleset.rules.value), Selected(data, lib)) &&
      multiset(matched) == multiset(Filter(ruleset.rules.value, Selected(data, lib))) &&
      forall i :: 0 <= i < |matched| ==> matched[i].enabled
  {
    var rules := ruleset.rules.value;
    var sorted := SortByPriorityDesc(rules);
    var keep := Selected(data, lib);
    ScanAllIsFilter(sorted, data, lib);
    var matched := Filter(sorted, keep);
    assert Detection(Some(ruleset), data, AllMatches, lib).value.matchedRules.value == matched;
    SortPermutation(rules);
    FilterPermutation(sorted, rules, keep);
  }

  /**
   * In either mode the reported rules never increase in priority, and in
   * all-matches mode the rules of one priority keep their ruleset order.
   */
  lemma MatchesOrderedAndStable(ruleset: Ruleset, data: string, mode: Mode, lib: RegexLib, p: int)
    requires ruleset.rules.Some?
    requires Detection(Some(ruleset), data, mode, lib).Ok?
    ensures NonIncreasing(Detection(Some(ruleset), data, mode, lib).value.matchedRules.value)
    ensures mode == AllMatches ==>
      var matched := Detection(Some(ruleset), data, mode, lib).value.matchedRules.value;
      Filter(matched, HasPriority(p)) == Filter(Filter(ruleset.rules.value, Selected(data, lib)), HasPriority(p))
  {
    var rules := ruleset.rules.value;
    var sorted := SortByPriorityDesc(rules);
    SortNonIncreasing(rules);
    ScanTopIsFirstOfAll(sorted, data, lib);
    if Scan(sorted, data, AllMatches, lib).Ok? {
      ScanAllIsFilter(sorted, data, lib);
      FilterNonIncreasing(sorted, Selected(data, lib));
      SortStable(rules, p);
      FilterCommutes(sorted, Selected(data, lib), HasPriority(p));
      FilterCommutes(rules, Selected(data, lib), HasPriority(p));
    } else {
      assert mode == TopMatchOnly;
    }
  }

  /**
   * Top-match mode reports the first rule of the all-matches report for the
   * same input and ruleset, and fails whenever it fails.
   */
  lemma TopMatchIsFirstOfAll(snapshot: Option<Ruleset>, data: string, lib: RegexLib)
    ensures Detection(snapshot, data, TopMatchOnly, lib).Err? ==> Detection(snapshot, data, AllMatches, lib).Err?
    ensures Detection(snapshot, data, AllMatches, lib).Ok? ==>
      var all := Detection(snapshot, data, AllMatches, lib).value.matchedRules.value;
      Detection(snapshot, data, TopMatchOnly, lib) == Ok(DetectionResult(data, Some(if all == [] then [] else all[..1])))
  {
    if snapshot.Some? && snapshot.value.rules.Some? {
      ScanTopIsFirstOfAll(SortByPriorityDesc(snapshot.value.rules.value), data, lib);
    }
  }

  /** Over rules sorted by priority, the top match is at least as high as any selected rule. */
  lemma ScanTopHighest(sorted: seq<Rule>, data: string, lib: RegexLib)
    requires NonIncreasing(sorted)
    requires Scan(sorted, data, TopMatchOnly, lib).Ok?
    requires Scan(sorted, data, TopMatchOnly, lib).value != []
    ensures var top := Scan(sorted, data, TopMatchOnly, lib).value[0];
      top in sorted && Selected(data, lib)(top) &&
      forall j :: 0 <= j < |sorted| && Selected(data, lib)(sorted[j]) ==> sorted[j].priority <= top.priority
  {
    var k := ScanTopIsFirstSelected(sorted, data, lib);
  }

  /** A top match has the highest priority among all enabled, matching rules of the ruleset. */
  lemma TopMatchHasHighestPriority(ruleset: Ruleset, data: string, lib: RegexLib)
    requires ruleset.rules.Some?
    requires Detection(Some(ruleset), data, TopMatchOnly, lib).Ok?
    requires Detection(Some(ruleset), data, TopMatchOnly, lib).value.HasMatch()
    ensures var top := Detection(Some(ruleset), data, TopMatchOnly, lib).value.matchedRules.value[0];
      Selected(data, lib)(top) && top in ruleset.rules.value &&
      forall i :: 0 <= i < |ruleset.rules.value| && Selected(data, lib)(ruleset.rules.value[i]) ==>
        ruleset.rules.value[i].priority <= top.priority
  {
    var rules := ruleset.rules.value;
    var sorted := SortByPriorityDesc(rules);
    SortNonIncreasing(rules);
    ScanTopHighest(sorted, data, lib);
    var top := Scan(sorted, data, TopMatchOnly, lib).value[0];
    SortPermutation(rules);
    assert top in multiset(rules);
    forall i | 0 <= i < |rules| && Selected(data, lib)(rules[i])
      ensures rules[i].priority <= top.priority
    {
      var j := PlaceInSorted(rules, i);
    }
  }

  /** `hasMatch` holds exactly when some enabled rule of the ruleset matches. */
  lemma HasMatchIff(snapshot: Option<Ruleset>, data: string, mode: Mode, lib: RegexLib)
    requires Detection(snapshot, data, mode, lib).Ok?
    ensures Detection(snapshot, data, mode, lib).value.HasMatch() <==>
      snapshot.Some? && snapshot.value.rules.Some? &&
      exists i :: 0 <= i < |snapshot.value.rules.value| && Selected(data, lib)(snapshot.value.rules.value[i])
  {
    if snapshot.Some? && snapshot.value.rules.Some? {
      var rules := snapshot.value.rules.value;
      var sorted := SortByPriorityDesc(rules);
      ScanEmptyIff(sorted, data, mode, lib);
      SortPermutation(rules);
      SomeUnderPermutation(rules, sorted, Selected(data, lib));
      SomeUnderPermutation(sorted, rules, Selected(data, lib));
    }
  }

  /**
   * Two enabled rules that both match, the lower-priority one listed first
   * (an id-card rule outranking a phone rule): all-matches mode reports
   * both, higher priority first, and top-match mode only the higher one.
   */
  lemma HigherPriorityReportedFirst(low: Rule, high: Rule, version: string, eTag: Option<string>, data: string, lib: RegexLib)
    requires low.enabled && high.enabled && low.priority < high.priority
    requires RuleMatches(low.matchers, data, lib) == Ok(true)
    requires RuleMatches(high.matchers, data, lib) == Ok(true)
    ensures Detection(Some(Ruleset(version, Some([low, high]), eTag)), data, AllMatches, lib) ==
      Ok(DetectionResult(data, Some([high, low])))
    ensures Detection(Some(Ruleset(version, Some([low, high]), eTag)), data, TopMatchOnly, lib) ==
      Ok(DetectionResult(data, Some([high])))
  {
    SortTwo(low, high);
    ScanTwo(high, low, data, lib);
  }

  lemma SortTwo(low: Rule, high: Rule)
    requires low.priority < high.priority
    ensures SortByPriorityDesc([low, high]) == [high, low]
  {
    assert [low, high][1..] == [high];
    assert SortByPriorityDesc([high]) == Insert(high, []) == [high];
    assert Insert(low, [high]) == [high] + Insert(low, []);
  }

  lemma ScanOne(r: Rule, data: string, lib: RegexLib)
    requires r.enabled && RuleMatches(r.matchers, data, lib) == Ok(true)
    ensures Scan([r], data, AllMatches, lib) == Ok([r])
  {
    assert [r][1..] == [];
    assert [r] + [] == [r];
  }

  lemma ScanTwo(first: Rule, second: Rule, data: string, lib: RegexLib)
    requires first.enabled && second.enabled
    requires RuleMatches(first.matchers, data, lib) == Ok(true)
    requires RuleMatches(second.matchers, data, lib) == Ok(true)
    ensures Scan([first, second], data, AllMatches, lib) == Ok([first, second])
    ensures Scan([first, second], data, TopMatchOnly, lib) == Ok([first])
  {
    assert [first, second][1..] == [second];
    ScanOne(second, data, lib);
    assert [first] + [second] == [first, second];
  }

  /**
   * The engine: it reads the rule manager's current ruleset and shares the
   * pattern cache with every other engine.
   */
  class DetectionEngine {
    const manager: RuleManager.RuleManager
    const cache: PatternCache.LruCache

    constructor (manager: RuleManager.RuleManager, cache: PatternCache.LruCache)
      ensures this.manager == manager && this.cache == cache
    {
      this.manager := manager;
      this.cache := cache;
    }

    /** `matches(rule, data)`, looking regular expressions up in the cache. */
    method Matches(rule: Rule, data: string) returns (r: Result<bool, PatternSyntaxError>)
      requires cache.Valid()
      modifies cache
      ensures cache.Valid()
      ensures r == RuleMatches(rule.matchers, data, cache.lib)
    {
      var matchers := rule.matchers;
      for i := 0 to |matchers|
        invariant cache.Valid()
        invariant RuleMatches(matchers, data, cache.lib) == RuleMatches(matchers[i..], data, cache.lib)
      {
        assert matchers[i..][1..] == matchers[i + 1..];
        var m := matchers[i];
        if m.kind.None? {
          continue;
        }
        var kind := m.kind.value;
        if EqualsIgnoreCase("regex", kind) {
          var compiled := cache.ComputeIfAbsent(m.pattern);
          if compiled.Err? {
            return Err(compiled.error);
          }
          if Find(cache.lib, compiled.value, data) {
            return Ok(true);
          }
        } else if EqualsIgnoreCase("fuzzy", kind) {
          var hit := FuzzyMatcher.Matches(m.pattern, data);
          if hit {
            return Ok(true);
          }
        } else if EqualsIgnoreCase("dictionary", kind) {
          var hit := DictionaryMatcher.Matches(Some(data), Some(m.pattern));
          if hit {
            return Ok(true);
          }
        }
      }
      return Ok(false);
    }

    /** `detect(data, mode)` against the manager's current ruleset. */
    method Detect(data: string, mode: Mode) returns (r: Result<DetectionResult, PatternSyntaxError>)
      requires cache.Valid()
      modifies cache
      ensures cache.Valid()
      ensures r == Detection(manager.current, data, mode, cache.lib)
    {
      var ruleset := manager.CurrentRuleset();
      if ruleset.None? || ruleset.value.rules.None? {
        return Ok(DetectionResult(data, Some([])));
      }
      var sorted := SortByPriorityDesc(ruleset.value.rules.value);
      var matched: seq<Rule> := [];
      var i := 0;
      while i < |sorted|
        invariant 0 <= i <= |sorted|
        invariant cache.Valid()
        invariant mode == TopMatchOnly ==> matched == []
        invariant Scan(sorted, data, mode, cache.lib) == Extend(matched, Scan(sorted[i..], data, mode, cache.lib))
      {
        assert sorted[i..][1..] == sorted[i + 1..];
        var rule := sorted[i];
        if !rule.enabled {
          i := i + 1;
          continue;
        }
        var hit := Matches(rule, data);
        if hit.Err? {
          return Err(hit.error);
        }
        if hit.value {
          if mode == TopMatchOnly {
            assert Scan(sorted[i..], data, mode, cache.lib) == Ok([rule]);
            matched := [rule];
            break;
          }
          assert Scan(sorted[i..], data, mode, cache.lib) == Extend([rule], Scan(sorted[i + 1..], data, mode, cache.lib));
          ExtendTwice(matched, [rule], Scan(sorted[i + 1..], data, mode, cache.lib));
          matched := matched + [rule];
        }
        i := i + 1;
      }
      assert matched + [] == matched;
      return Ok(DetectionResult(data, Some(matched)));
    }
  }
}
